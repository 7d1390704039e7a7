/** The slices of `split_task`. */
module SplitTask {
  // A task function runs on the slices of its elements; a subtask is spawned for each remaining
  // slice as soon as the time spent exceeds the duration.

  import opened Tasks
  import opened ModSlices
  import opened Folds

  /** The number of slices: at most one per element. Zero or negative values of
      `outs_per_task` give no slice at all, as `range` does. */
  function Outs(n: nat, outsPerTask: int): nat {
    if outsPerTask > n then n else if outsPerTask < 0 then 0 else outsPerTask
  }

  function Slices<T>(elements: seq<T>, outsPerTask: int): seq<seq<T>> {
    var m := Outs(|elements|, outsPerTask);
    if m == 0 then [] else FirstSlices(elements, m, m)
  }

  /** A subtask applies the function once. */
  function CallOn<T, V>(func: seq<T> -> Return<V>, els: seq<T>): Task<V> {
    Function(func(els))
  }

  function Spawn<T, V>(func: seq<T> -> Return<V>, slices: seq<seq<T>>): seq<Yield<V>> {
    seq(|slices|, i requires 0 <= i < |slices| => Call(CallOn(func, slices[i])))
  }

  /** What is yielded from slice i on, and how the generator ends; `slow(i)` says that the
      duration is exceeded after slice i. A StopIteration that leaves a generator is turned
      into a RuntimeError. */
  function YieldsFrom<T, V>(
    slices: seq<seq<T>>, i: nat, func: seq<T> -> Return<V>, slow: nat -> bool): (seq<Yield<V>>, Ending)
    requires i <= |slices|
    decreases |slices| - i
  {
    if i == |slices| then ([], Exhausted)
    else match func(slices[i])
      case Ret(y) =>
        if slow(i) then ([y] + Spawn(func, slices[i + 1..]), Exhausted)
        else var r := YieldsFrom(slices, i + 1, func, slow); ([y] + r.0, r.1)
      case Dies => ([], Dying)
      case _ => ([], Raising)
  }

  function Split<T, V>(elements: seq<T>, func: seq<T> -> Return<V>, outsPerTask: int, slow: nat -> bool): Task<V> {
    var r := YieldsFrom(Slices(elements, outsPerTask), 0, func, slow);
    Generator(r.0, r.1)
  }

  lemma {:induction false} SpawnStep<T, V>(func: seq<T> -> Return<V>, slices: seq<seq<T>>, j: nat)
    requires j < |slices|
    ensures Spawn(func, slices[j..]) == [Call(CallOn(func, slices[j]))] + Spawn(func, slices[j + 1..])
  {
  }

  lemma {:induction false} SpawnNothing<T, V>(func: seq<T> -> Return<V>, slices: seq<seq<T>>)
    requires slices == []
    ensures Spawn(func, slices) == []
  {
  }

  /** What is still to come after some yields. */
  ghost predicate Rest<V>(all: (seq<Yield<V>>, Ending), produced: seq<Yield<V>>, r: (seq<Yield<V>>, Ending)) {
    all.0 == produced + r.0 && all.1 == r.1
  }

  lemma {:induction false} RestStarts<V>(all: (seq<Yield<V>>, Ending))
    ensures Rest(all, [], all)
  {
  }

  lemma {:induction false} RestStep<V>(
    all: (seq<Yield<V>>, Ending), produced: seq<Yield<V>>, more: seq<Yield<V>>, r: (seq<Yield<V>>, Ending))
    ensures Rest(all, produced, (more + r.0, r.1)) ==> Rest(all, produced + more, r)
    ensures Rest(all, produced, (more, r.1)) ==> all == (produced + more, r.1)
  {
    assert produced + (more + r.0) == produced + more + r.0;
  }

  lemma {:induction false} YieldsFromStep<T, V>(
    slices: seq<seq<T>>, i: nat, func: seq<T> -> Return<V>, slow: nat -> bool)
    requires i <= |slices|
    ensures YieldsFrom(slices, i, func, slow) ==
      if i == |slices| then ([], Exhausted)
      else if func(slices[i]).Dies? then ([], Dying)
      else if !func(slices[i]).Ret? then ([], Raising)
      else if slow(i) then ([func(slices[i]).y] + Spawn(func, slices[i + 1..]), Exhausted)
      else var r := YieldsFrom(slices, i + 1, func, slow); ([func(slices[i]).y] + r.0, r.1)
  {
  }

  /** The generator itself: it runs until the slices are over, the function raises, or the
      rest is spawned. */
  method SplitTask<T, V>(elements: seq<T>, func: seq<T> -> Return<V>, outsPerTask: int, slow: nat -> bool)
    returns (produced: seq<Yield<V>>, ending: Ending)
    ensures Generator(produced, ending) == Split(elements, func, outsPerTask, slow)
  {
    hide Slices, Spawn, YieldsFrom, Rest;
    produced, ending := [], Exhausted;
    var slices := Slices(elements, outsPerTask);
    ghost var all := YieldsFrom(slices, 0, func, slow);
    RestStarts(all);
    var i := 0;
    while i < |slices|
      invariant 0 <= i <= |slices|
      invariant ending == Exhausted
      invariant Rest(all, produced, YieldsFrom(slices, i, func, slow))
    {
      YieldsFromStep(slices, i, func, slow);
      var res := func(slices[i]);
      if !res.Ret? {
        ending := if res.Dies? then Dying else Raising;
        RestStep(all, produced, [], ([], ending));
        assert produced + [] == produced;
        return;
      }
      RestStep(all, produced, [res.y], YieldsFrom(slices, i + 1, func, slow));
      if slow(i) {
        var rest := SpawnRest(func, slices[i + 1..]);
        RestStep(all, produced, [res.y] + rest, ([], Exhausted));
        produced := produced + ([res.y] + rest);
        return;
      }
      produced := produced + [res.y];
      i := i + 1;
    }
    YieldsFromStep(slices, i, func, slow);
    RestStep(all, produced, [], ([], Exhausted));
    assert produced + [] == produced;
  }

  method SpawnRest<T, V>(func: seq<T> -> Return<V>, slices: seq<seq<T>>) returns (calls: seq<Yield<V>>)
    ensures calls == Spawn(func, slices)
  {
    calls := [];
    for j := 0 to |slices|
      invariant calls == Spawn(func, slices)[..j]
    {
      calls := calls + [Call(CallOn(func, slices[j]))];
    }
  }

  /** The elements are covered exactly when there is at least one slice to make, or nothing
      to cover: with outs_per_task <= 0 every element is silently lost. */
  lemma {:induction false} SlicesCoverIff<T>(elements: seq<T>, outsPerTask: int)
    ensures multiset(Concat(Slices(elements, outsPerTask))) == multiset(elements) <==> outsPerTask > 0 || elements == []
    ensures forall i :: 0 <= i < |Slices(elements, outsPerTask)| ==> Slices(elements, outsPerTask)[i] != []
  {
    var m := Outs(|elements|, outsPerTask);
    if m > 0 {
      SlicesPermute(elements, m);
      forall i | 0 <= i < m ensures Slices(elements, outsPerTask)[i] != [] {
        SliceNonEmpty(elements, m, i);
      }
    } else if elements != [] {
      assert elements[0] in multiset(elements);
      assert Concat(Slices(elements, outsPerTask)) == [];
    }
  }

  /** Element j is element j / m of slice j % m. */
  ghost predicate Placed<T>(slices: seq<seq<T>>, m: nat, elements: seq<T>)
    requires |slices| == m
  {
    forall j: nat :: j < |elements| ==> m > 0 && j / m < |slices[j % m]| && slices[j % m][j / m] == elements[j]
  }

  /** There is nothing else in the slices: position q of slice i has element q * m + i. */
  ghost predicate NothingElse<T>(slices: seq<seq<T>>, m: nat, elements: seq<T>)
    requires |slices| == m
  {
    forall i: nat, q: nat :: i < m && q < |slices[i]| ==> IsElement(slices[i][q], q * m + i, elements)
  }

  ghost predicate IsElement<T>(x: T, j: nat, elements: seq<T>) {
    j < |elements| && x == elements[j]
  }

  lemma {:induction false} SlicesPlaced<T>(elements: seq<T>, m: nat)
    requires m > 0
    ensures Placed(FirstSlices(elements, m, m), m, elements)
  {
    hide ModSlice;
    forall j: nat | j < |elements|
      ensures j / m < |FirstSlices(elements, m, m)[j % m]| && FirstSlices(elements, m, m)[j % m][j / m] == elements[j]
    {
      ElementAt(elements, m, j);
    }
  }

  lemma {:induction false} SlicesHaveNothingElse<T>(elements: seq<T>, m: nat)
    requires m > 0
    ensures NothingElse(FirstSlices(elements, m, m), m, elements)
  {
    hide ModSlice;
    var slices := FirstSlices(elements, m, m);
    forall i: nat, q: nat | i < m && q < |slices[i]| ensures IsElement(slices[i][q], q * m + i, elements) {
      SliceAt(elements, m, i, q);
    }
  }

  /** How the elements are split: in as many slices as asked for, or one for each element if there are
      fewer, by the remainders of their positions. */
  lemma {:induction false} SlicesAre<T>(elements: seq<T>, outsPerTask: int)
    ensures outsPerTask <= 0 ==> Slices(elements, outsPerTask) == []
    ensures outsPerTask > 0 ==>
      var slices := Slices(elements, outsPerTask);
      && |slices| == (if outsPerTask < |elements| then outsPerTask else |elements|)
      && Placed(slices, |slices|, elements) && NothingElse(slices, |slices|, elements)
  {
    hide FirstSlices;
    if outsPerTask > 0 && elements != [] {
      SlicesPlaced(elements, Outs(|elements|, outsPerTask));
      SlicesHaveNothingElse(elements, Outs(|elements|, outsPerTask));
    }
  }

  /** The first slice after which the task stops on its own: the function does not return a value, or
      the duration is exceeded. */
  ghost predicate FirstStop<T, V>(
    slices: seq<seq<T>>, i: nat, n: nat, func: seq<T> -> Return<V>, slow: nat -> bool)
  {
    && i <= n <= |slices|
    && (forall j :: i <= j < n ==> func(slices[j]).Ret? && !slow(j))
    && (n < |slices| ==> !func(slices[n]).Ret? || slow(n))
  }

  /** What a split task yields, one by one: the results of the function on the slices before n; at n
      nothing more if the function raises, otherwise its result and then one subtask for each of
      the slices left, which applies the function to it. */
  ghost predicate SplitYields<T, V>(
    slices: seq<seq<T>>, i: nat, n: nat, func: seq<T> -> Return<V>, ys: seq<Yield<V>>, ending: Ending)
    requires i <= n <= |slices|
  {
    && (forall j :: i <= j < n && j - i < |ys| && func(slices[j]).Ret? ==> ys[j - i] == func(slices[j]).y)
    && (n == |slices| ==> |ys| == n - i && ending == Exhausted)
    && (n < |slices| && func(slices[n]).Dies? ==> |ys| == n - i && ending == Dying)
    && (n < |slices| && (func(slices[n]).Throw? || func(slices[n]).StopIteration?) ==>
         |ys| == n - i && ending == Raising)
    && (n < |slices| && func(slices[n]).Ret? ==>
         && |ys| == |slices| - i && ending == Exhausted && ys[n - i] == func(slices[n]).y
         && forall j :: n < j < |slices| ==> ys[j - i] == Call(Function(func(slices[j]))))
  }

  lemma {:induction false} YieldsFromAre<T, V>(
    slices: seq<seq<T>>, i: nat, n: nat, func: seq<T> -> Return<V>, slow: nat -> bool)
    requires FirstStop(slices, i, n, func, slow)
    ensures var r := YieldsFrom(slices, i, func, slow); SplitYields(slices, i, n, func, r.0, r.1)
    decreases n - i
  {
    if i < n {
      YieldsFromAre(slices, i + 1, n, func, slow);
      var r := YieldsFrom(slices, i + 1, func, slow);
      FirstYield(slices, i, n, func, r.0, r.1);
    }
  }

  lemma {:induction false} FirstYield<T, V>(
    slices: seq<seq<T>>, i: nat, n: nat, func: seq<T> -> Return<V>, ys: seq<Yield<V>>, ending: Ending)
    requires i < n <= |slices| && func(slices[i]).Ret? && SplitYields(slices, i + 1, n, func, ys, ending)
    ensures SplitYields(slices, i, n, func, [func(slices[i]).y] + ys, ending)
  {
  }

  /** When the function returns a value on every slice before the n-th, and n is the first after which
      the duration is exceeded (or there is none). */
  lemma {:induction false} SplitYieldsAre<T, V>(
    elements: seq<T>, func: seq<T> -> Return<V>, outsPerTask: int, slow: nat -> bool, n: nat)
    requires FirstStop(Slices(elements, outsPerTask), 0, n, func, slow)
    ensures var t := Split(elements, func, outsPerTask, slow);
      t.Generator? && SplitYields(Slices(elements, outsPerTask), 0, n, func, t.produced, t.ending)
  {
    YieldsFromAre(Slices(elements, outsPerTask), 0, n, func, slow);
  }

  /** With no outputs per task a split task does nothing and ends: its element is lost. */
  lemma {:induction false} LostElementsWitness<T, V>(x: T, func: seq<T> -> Return<V>, slow: nat -> bool)
    ensures Split([x], func, 0, slow) == Generator([], Exhausted)
    ensures Messages(Split([x], func, 0, slow)) == [TaskEnded]
  {
  }

  // ----- when a split task ends exactly once

  /** The tree of tasks behaves from slice i on, for one choice of where it overruns. */
  ghost predicate BehavesFrom<T, V>(slices: seq<seq<T>>, i: nat, func: seq<T> -> Return<V>, slow: nat -> bool)
    requires i <= |slices|
    decreases |slices| - i
  {
    if i == |slices| then true
    else match func(slices[i])
      case Ret(y) =>
        && WellBehavedTree(CallOn(func, slices[i]))
        && if slow(i) then AllBehave(slices, i + 1, func) else BehavesFrom(slices, i + 1, func, slow)
      case Dies => false
      case _ => true
  }

  ghost predicate AllBehave<T, V>(slices: seq<seq<T>>, i: nat, func: seq<T> -> Return<V>) {
    forall j :: i <= j < |slices| ==> WellBehavedTree(CallOn(func, slices[j]))
  }

  ghost predicate YieldsBehave<V>(ys: seq<Yield<V>>, ending: Ending) {
    !ending.Dying? && forall y :: y in ys ==> !y.Unsendable? && (y.Call? ==> WellBehavedTree(y.sub))
  }

  lemma {:induction false} SpawnBehavesIff<T, V>(func: seq<T> -> Return<V>, slices: seq<seq<T>>, i: nat)
    requires i <= |slices|
    ensures YieldsBehave(Spawn(func, slices[i..]), Exhausted) <==> AllBehave(slices, i, func)
  {
    var ys := Spawn(func, slices[i..]);
    if YieldsBehave(ys, Exhausted) {
      forall j | i <= j < |slices| ensures WellBehavedTree(CallOn(func, slices[j])) {
        assert ys[j - i] in ys && ys[j - i] == Call(CallOn(func, slices[j]));
      }
    }
  }

  lemma {:induction false} YieldsBehaveCons<V>(y: Yield<V>, ys: seq<Yield<V>>, ending: Ending)
    ensures YieldsBehave([y] + ys, ending) <==> WellBehavedTree(Function(Ret(y))) && YieldsBehave(ys, ending)
  {
    assert y in [y] + ys && forall z :: z in ys ==> z in [y] + ys;
  }

  lemma {:induction false} YieldsFromBehaveIff<T, V>(
    slices: seq<seq<T>>, i: nat, func: seq<T> -> Return<V>, slow: nat -> bool)
    requires i <= |slices|
    ensures var r := YieldsFrom(slices, i, func, slow);
      YieldsBehave(r.0, r.1) <==> BehavesFrom(slices, i, func, slow)
    decreases |slices| - i
  {
    hide YieldsBehave, WellBehavedTree, AllBehave, Spawn;
    if i == |slices| || !func(slices[i]).Ret? {
      NoYieldsBehave<V>();
    } else {
      var y := func(slices[i]).y;
      if slow(i) {
        SpawnBehavesIff(func, slices, i + 1);
        YieldsBehaveCons(y, Spawn(func, slices[i + 1..]), Exhausted);
      } else {
        YieldsFromBehaveIff(slices, i + 1, func, slow);
        var r := YieldsFrom(slices, i + 1, func, slow);
        YieldsBehaveCons(y, r.0, r.1);
      }
    }
  }

  lemma {:induction false} NoYieldsBehave<V>()
    ensures YieldsBehave<V>([], Exhausted) && YieldsBehave<V>([], Raising) && !YieldsBehave<V>([], Dying)
  {
  }

  lemma {:induction false} GeneratorTree<V>(ys: seq<Yield<V>>, ending: Ending)
    ensures WellBehavedTree(Generator(ys, ending)) <==> YieldsBehave(ys, ending)
  {
    assert forall i :: 0 <= i < |ys| ==> ys[i] in ys;
  }

  /** A split task with all its subtasks ends exactly once wherever it overruns, if and only if
      it has no slice, or the function raises on the first slice, or the function behaves on
      every slice. (Behaving excludes StopIteration: harmless inside the generator, it ends
      a subtask twice.) */
  lemma {:induction false} SplitBehavesIff<T, V>(elements: seq<T>, func: seq<T> -> Return<V>, outsPerTask: int)
    ensures (forall slow :: WellBehavedTree(Split(elements, func, outsPerTask, slow))) <==>
            var slices := Slices(elements, outsPerTask);
            slices == [] || func(slices[0]).Throw? || func(slices[0]).StopIteration? || AllBehave(slices, 0, func)
  {
    hide WellBehavedTree, Slices, YieldsFrom;
    var slices := Slices(elements, outsPerTask);
    forall slow
      ensures WellBehavedTree(Split(elements, func, outsPerTask, slow)) <==> BehavesFrom(slices, 0, func, slow)
    {
      YieldsFromBehaveIff(slices, 0, func, slow);
      var r := YieldsFrom(slices, 0, func, slow);
      GeneratorTree(r.0, r.1);
    }
    if AllBehave(slices, 0, func) {
      forall slow ensures BehavesFrom(slices, 0, func, slow) {
        AllBehaveFrom(slices, 0, func, slow);
      }
    }
    var always := (i: nat) => true;
    assert WellBehavedTree(Split(elements, func, outsPerTask, always)) <==> BehavesFrom(slices, 0, func, always);
  }

  lemma {:induction false} AllBehaveFrom<T, V>(
    slices: seq<seq<T>>, i: nat, func: seq<T> -> Return<V>, slow: nat -> bool)
    requires i <= |slices| && AllBehave(slices, i, func)
    ensures BehavesFrom(slices, i, func, slow)
    decreases |slices| - i
  {
    if i < |slices| {
      assert WellBehavedTree(CallOn(func, slices[i]));
      AllBehaveFrom(slices, i + 1, func, slow);
    }
  }

  // ----- the outputs of a split task, those of its subtasks included

  /** Neither a subtask of its own nor a fatal end: a value or an exception reaches the master. */
  predicate Ordinary<V>(r: Return<V>) {
    r.Throw? || (r.Ret? && (r.y.Plain? || r.y.SendFails?))
  }

  function OutcomeOf<V>(r: Return<V>): Outcome<V> {
    if r.Ret? && r.y.Plain? then Value(r.y.v) else Raised
  }

  /** What the master gets from the function. */
  function Result<T, V>(func: seq<T> -> Return<V>): seq<T> -> Outcome<V> {
    (s: seq<T>) => OutcomeOf(func(s))
  }

  ghost predicate AllOrdinary<T, V>(slices: seq<seq<T>>, func: seq<T> -> Return<V>) {
    forall i :: 0 <= i < |slices| ==> Ordinary(func(slices[i]))
  }

  /** The function on each slice. */
  function Calls<T, V>(slices: seq<seq<T>>, func: seq<T> -> Return<V>): seq<Outcome<V>> {
    seq(|slices|, i requires 0 <= i < |slices| => Result(func)(slices[i]))
  }

  /** The outputs that reach the master from slice i on. */
  ghost function OutputsFrom<T, V>(
    slices: seq<seq<T>>, i: nat, func: seq<T> -> Return<V>, slow: nat -> bool): seq<Outcome<V>>
    requires i <= |slices|
    decreases |slices| - i
  {
    if i == |slices| then []
    else if !func(slices[i]).Ret? then [Raised]
    else if slow(i) then [Result(func)(slices[i])] + Calls(slices[i + 1..], func)
    else [Result(func)(slices[i])] + OutputsFrom(slices, i + 1, func, slow)
  }

  lemma {:induction false} SubtaskOutputs<T, V>(func: seq<T> -> Return<V>, els: seq<T>)
    requires Ordinary(func(els))
    ensures OutputsOf(Messages(CallOn(func, els))) == multiset{Result(func)(els)}
    ensures WellBehavedTree(CallOn(func, els))
  {
    var ms := Messages(CallOn(func, els));
    assert ms == [Output(Result(func)(els)), TaskEnded];
    assert ms[1..] == [TaskEnded];
    assert OutputsOf(ms[1..]) == OutputsOf(ms[1..][1..]) == multiset{};
  }

  lemma {:induction false} SpawnOutputs<T, V>(func: seq<T> -> Return<V>, slices: seq<seq<T>>)
    requires AllOrdinary(slices, func)
    ensures OutputsOf(GeneratorMessages(Spawn(func, slices), Exhausted)) == multiset(Calls(slices, func))
  {
    hide WellBehavedTree, CallOn, Messages, Spawn, Ordinary, Result;
    if slices == [] {
      SpawnNothing(func, slices);
      EndOutputs<V>(Exhausted);
    } else {
      SubtaskOutputs(func, slices[0]);
      SpawnOutputs(func, slices[1..]);
      SpawnStep(func, slices, 0);
      assert slices[0..] == slices && slices[0 + 1..] == slices[1..];
      FirstCall(CallOn(func, slices[0]), Spawn(func, slices[1..]));
      assert Calls(slices, func) == [Result(func)(slices[0])] + Calls(slices[1..], func);
    }
  }

  lemma {:induction false} FirstCall<V>(t: Task<V>, ys: seq<Yield<V>>)
    ensures OutputsOf(GeneratorMessages([Call(t)] + ys, Exhausted)) ==
            OutputsOf(Messages(t)) + OutputsOf(GeneratorMessages(ys, Exhausted))
  {
    hide Messages;
    var ms := GeneratorMessages([Call(t)] + ys, Exhausted);
    assert ([Call(t)] + ys)[1..] == ys;
    assert ms[1..] == GeneratorMessages(ys, Exhausted);
  }

  lemma {:induction false} EndOutputs<V>(ending: Ending)
    ensures OutputsOf(GeneratorMessages<V>([], ending)) == if ending.Raising? then multiset{Raised} else multiset{}
  {
    var end: seq<Message<V>> := [TaskEnded];
    assert OutputsOf(end) == OutputsOf(end[1..]) == multiset{};
    assert [Message<V>.Output(Raised), TaskEnded][1..] == end;
  }

  lemma {:induction false} FirstOutput<V>(y: Yield<V>, ys: seq<Yield<V>>, ending: Ending)
    requires y.Plain? || y.SendFails?
    ensures OutputsOf(GeneratorMessages([y] + ys, ending)) ==
            multiset{OutcomeOf(Ret(y))} + OutputsOf(GeneratorMessages(ys, ending))
  {
    assert ([y] + ys)[1..] == ys;
    var ms := GeneratorMessages([y] + ys, ending);
    assert ms[0] == Output(OutcomeOf(Ret(y))) && ms[1..] == GeneratorMessages(ys, ending);
  }

  lemma {:induction false} YieldsFromOutputs<T, V>(
    slices: seq<seq<T>>, i: nat, func: seq<T> -> Return<V>, slow: nat -> bool)
    requires i <= |slices| && AllOrdinary(slices, func)
    ensures var r := YieldsFrom(slices, i, func, slow);
      OutputsOf(GeneratorMessages(r.0, r.1)) == multiset(OutputsFrom(slices, i, func, slow))
    decreases |slices| - i
  {
    hide OutputsOf, GeneratorMessages, Spawn, Calls;
    if i == |slices| || !func(slices[i]).Ret? {
      EndOutputs<V>(if i < |slices| then Raising else Exhausted);
    } else {
      var y := func(slices[i]).y;
      if slow(i) {
        SpawnOutputs(func, slices[i + 1..]);
        FirstOutput(y, Spawn(func, slices[i + 1..]), Exhausted);
      } else {
        var r := YieldsFrom(slices, i + 1, func, slow);
        YieldsFromOutputs(slices, i + 1, func, slow);
        FirstOutput(y, r.0, r.1);
      }
    }
  }

  /** Stopping at the first exception loses nothing: the exception absorbs the rest. */
  lemma {:induction false} OutputsFromFold<T, V(!new)>(
    slices: seq<seq<T>>, i: nat, func: seq<T> -> Return<V>, slow: nat -> bool, op: (V, V) -> V, unit: V)
    requires i <= |slices| && CommutativeMonoid(op, unit)
    ensures FoldBy(OutputsFrom(slices, i, func, slow), o => o, op, unit) == FoldBy(slices[i..], Result(func), op, unit)
    decreases |slices| - i
  {
    hide CommutativeMonoid;
    var id := (o: Outcome<V>) => o;
    if i < |slices| {
      assert slices[i..][0] == slices[i] && slices[i..][1..] == slices[i + 1..];
      var tail := if slow(i) then Calls(slices[i + 1..], func) else OutputsFrom(slices, i + 1, func, slow);
      OutputsFromFold(slices, i + 1, func, slow, op, unit);
      CallsFold(slices[i + 1..], func, op, unit);
      FoldCons(Result(func)(slices[i]), tail, op, unit);
      FoldCons<V>(Raised, [], op, unit);
    }
  }

  lemma {:induction false} FoldCons<V>(o: Outcome<V>, rest: seq<Outcome<V>>, op: (V, V) -> V, unit: V)
    ensures FoldBy([o] + rest, x => x, op, unit) == Join(op, o, FoldBy(rest, x => x, op, unit))
    ensures o.Raised? ==> FoldBy([o] + rest, x => x, op, unit) == Raised
  {
    assert ([o] + rest)[1..] == rest;
  }

  lemma {:induction false} CallsFold<T, V>(slices: seq<seq<T>>, func: seq<T> -> Return<V>, op: (V, V) -> V, unit: V)
    ensures FoldBy(Calls(slices, func), o => o, op, unit) == FoldBy(slices, Result(func), op, unit)
  {
    hide Result;
    if slices == [] {
      assert Calls(slices, func) == [];
    } else {
      CallsFold(slices[1..], func, op, unit);
      assert Calls(slices, func) == [Result(func)(slices[0])] + Calls(slices[1..], func);
    }
  }
}

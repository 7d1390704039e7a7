/** The partitioner of the engine. */
module Blocks {
  // Weighted sequences, `block_splitter` and `split_in_blocks`.

  import opened Basics
  import opened ModSlices
  import opened Reals

  /** The value of a WeightedSequence. */
  datatype Block<T> = Block(items: seq<T>, weight: real)

  class WeightedSequence<T> {
    var items: seq<T>
    var weight: real

    function Value(): Block<T>
      reads this
    {
      Block(items, weight)
    }

    constructor ()
      ensures Value() == Block([], 0.0)
    {
      items, weight := [], 0.0;
    }

    method Insert(i: nat, item: T, w: real)
      requires i <= |items|
      modifies this
      ensures items == old(items)[..i] + [item] + old(items)[i..]
      ensures weight == old(weight) + w
    {
      items := items[..i] + [item] + items[i..];
      weight := weight + w;
    }

    method Append(item: T, w: real)
      modifies this
      ensures Value() == Block(old(items) + [item], old(weight) + w)
    {
      Insert(|items|, item, w);
      assert old(items)[..|old(items)|] + [item] + old(items)[|old(items)|..] == old(items) + [item];
    }
  }

  /** The outcome of a lazy splitter: the blocks yielded, and whether it then raised. */
  datatype Split<T> = Split(blocks: seq<Block<T>>, failed: bool)

  function Yielded<T>(ws: Block<T>): seq<Block<T>> {
    if ws.items == [] then [] else [ws]
  }

  /** The blocks still to be yielded when `ws` is open and the last key seen is `prev`. */
  function SplitFrom<T, K(==)>(items: seq<T>, maxWeight: real, weight: T -> real, key: T -> K,
                               ws: Block<T>, prev: K): Split<T>
  {
    if items == [] then Split(Yielded(ws), false)
    else
      var item, rest := items[0], items[1..];
      var w, k := weight(item), key(item);
      if w < 0.0 then Split([], true)
      else if ws.weight + w > maxWeight || k != prev then
        var r := SplitFrom(rest, maxWeight, weight, key, Block([item], w), k);
        Split(Yielded(ws) + r.blocks, r.failed)
      else if w > 0.0 then
        SplitFrom(rest, maxWeight, weight, key, Block(ws.items + [item], ws.weight + w), k)
      else
        SplitFrom(rest, maxWeight, weight, key, ws, k)
  }

  function SplitBlocks<T, K(==)>(
    items: seq<T>, maxWeight: real, weight: T -> real, key: T -> K, unspecified: K): Split<T> {
    if maxWeight <= 0.0 then Split([], true)
    else SplitFrom(items, maxWeight, weight, key, Block([], 0.0), unspecified)
  }

  function InsertDown<T>(x: T, s: seq<T>, weight: T -> real): seq<T> {
    if s != [] && weight(s[0]) > weight(x) then [s[0]] + InsertDown(x, s[1..], weight) else [x] + s
  }

  /** `sorted(items, key=weight, reverse=True)`: by decreasing weight, and stable. */
  function Descending<T>(items: seq<T>, weight: T -> real): seq<T> {
    if items == [] then [] else InsertDown(items[0], Descending(items[1..], weight), weight)
  }

  ghost predicate Falling<T>(s: seq<T>, weight: T -> real) {
    |s| < 2 || (weight(s[0]) >= weight(s[1]) && Falling(s[1..], weight))
  }

  lemma {:induction false} InsertDownFalls<T>(x: T, s: seq<T>, weight: T -> real)
    requires Falling(s, weight)
    ensures var r := InsertDown(x, s, weight);
      Falling(r, weight) && r != [] && (r[0] == x || (s != [] && r[0] == s[0]))
  {
    if s != [] && weight(s[0]) > weight(x) {
      InsertDownFalls(x, s[1..], weight);
      assert ([s[0]] + InsertDown(x, s[1..], weight))[1..] == InsertDown(x, s[1..], weight);
    } else {
      assert ([x] + s)[1..] == s;
    }
  }

  lemma {:induction false} InsertDownPermutes<T>(x: T, s: seq<T>, weight: T -> real)
    ensures multiset(InsertDown(x, s, weight)) == multiset{x} + multiset(s)
  {
    if s != [] && weight(s[0]) > weight(x) {
      InsertDownPermutes(x, s[1..], weight);
      assert s == [s[0]] + s[1..];
    }
  }

  lemma {:induction false} FallingOrder<T>(s: seq<T>, weight: T -> real, i: nat, j: nat)
    requires Falling(s, weight) && i <= j < |s|
    ensures weight(s[i]) >= weight(s[j])
  {
    if i > 0 {
      FallingOrder(s[1..], weight, i - 1, j - 1);
    } else if j > 0 {
      FallingOrder(s[1..], weight, 0, j - 1);
    }
  }

  lemma {:induction false} DescendingFalls<T>(items: seq<T>, weight: T -> real)
    ensures Falling(Descending(items, weight), weight)
    ensures multiset(Descending(items, weight)) == multiset(items)
  {
    if items != [] {
      DescendingFalls(items[1..], weight);
      InsertDownFalls(items[0], Descending(items[1..], weight), weight);
      InsertDownPermutes(items[0], Descending(items[1..], weight), weight);
      assert items == [items[0]] + items[1..];
    }
  }

  /** Sorting before splitting permutes the items and puts the heaviest first. */
  lemma {:induction false} DescendingFacts<T>(items: seq<T>, weight: T -> real)
    ensures var r := Descending(items, weight);
      multiset(r) == multiset(items) && forall i, j :: 0 <= i < j < |r| ==> weight(r[i]) >= weight(r[j])
  {
    hide Falling, Descending;
    DescendingFalls(items, weight);
    forall i, j | 0 <= i < j < |Descending(items, weight)|
      ensures weight(Descending(items, weight)[i]) >= weight(Descending(items, weight)[j])
    {
      FallingOrder(Descending(items, weight), weight, i, j);
    }
  }

  /** `block_splitter`, with its option of sorting the items first. */
  method BlockSplitter<T, K(==)>(
    items: seq<T>, maxWeight: real, weight: T -> real, key: T -> K, sort: bool, unspecified: K)
    returns (blocks: seq<Block<T>>, failed: bool)
    ensures Split(blocks, failed) ==
      SplitBlocks(if sort then Descending(items, weight) else items, maxWeight, weight, key, unspecified)
  {
    var all := if sort then Descending(items, weight) else items;
    blocks, failed := YieldBlocks(all, maxWeight, weight, key, unspecified);
  }

  method YieldBlocks<T, K(==)>(items: seq<T>, maxWeight: real, weight: T -> real, key: T -> K, unspecified: K)
    returns (blocks: seq<Block<T>>, failed: bool)
    ensures Split(blocks, failed) == SplitBlocks(items, maxWeight, weight, key, unspecified)
  {
    blocks, failed := [], false;
    if maxWeight <= 0.0 {
      return [], true;
    }
    var ws := new WeightedSequence<T>();
    var prev := unspecified;
    ghost var all := SplitBlocks(items, maxWeight, weight, key, unspecified);
    assert items[0..] == items;
    hide SplitFrom, SplitBlocks, Rest;
    RestAll(all);
    var i := 0;
    while i < |items|
      invariant 0 <= i <= |items|
      invariant fresh(ws) && !failed
      invariant Rest(all, blocks, SplitFrom(items[i..], maxWeight, weight, key, ws.Value(), prev))
    {
      var item := items[i];
      SplitFromStep(items, i, maxWeight, weight, key, ws.Value(), prev);
      var w, k := weight(item), key(item);
      if w < 0.0 {
        RestEnds(all, blocks, true);
        return blocks, true;
      } else if ws.weight + w > maxWeight || k != prev {
        var newWs := OneItem(item, w);
        RestMore(all, blocks, Yielded(ws.Value()),
          SplitFrom(items[i + 1..], maxWeight, weight, key, Block([item], w), k));
        if |ws.items| > 0 {
          blocks := blocks + [ws.Value()];
        }
        ws := newWs;
      } else if w > 0.0 {
        ws.Append(item, w);
      }
      prev := k;
      i := i + 1;
    }
    SplitFromEnd(items[i..], maxWeight, weight, key, ws.Value(), prev);
    RestMore(all, blocks, Yielded(ws.Value()), Split([], false));
    if |ws.items| > 0 {
      blocks := blocks + [ws.Value()];
    }
    RestEnds(all, blocks, false);
  }

  method OneItem<T>(item: T, w: real) returns (ws: WeightedSequence<T>)
    ensures fresh(ws) && ws.Value() == Block([item], w)
  {
    ws := new WeightedSequence<T>();
    ws.Append(item, w);
    assert [] + [item] == [item];
  }

  /** What is still to come after some blocks. */
  ghost predicate Rest<T>(all: Split<T>, blocks: seq<Block<T>>, r: Split<T>) {
    all == Split(blocks + r.blocks, r.failed)
  }

  lemma {:induction false} RestAll<T>(all: Split<T>)
    ensures Rest(all, [], all)
  {
    assert [] + all.blocks == all.blocks;
  }

  lemma {:induction false} RestMore<T>(all: Split<T>, blocks: seq<Block<T>>, more: seq<Block<T>>, r: Split<T>)
    ensures Rest(all, blocks, Split(more + r.blocks, r.failed)) ==>
      Rest(all, if more == [] then blocks else blocks + more, r)
    ensures r.blocks == [] && Rest(all, blocks, Split(more, r.failed)) ==>
      Rest(all, if more == [] then blocks else blocks + more, r)
  {
    assert blocks + (more + r.blocks) == (blocks + more) + r.blocks;
    assert blocks + [] == blocks;
    assert r.blocks == [] ==> more + r.blocks == more;
  }

  lemma {:induction false} RestEnds<T>(all: Split<T>, blocks: seq<Block<T>>, failed: bool)
    ensures Rest(all, blocks, Split([], failed)) ==> all == Split(blocks, failed)
  {
    assert blocks + [] == blocks;
  }

  lemma {:induction false} SplitFromEnd<T, K>(
    items: seq<T>, maxWeight: real, weight: T -> real, key: T -> K, ws: Block<T>, prev: K)
    requires items == []
    ensures SplitFrom(items, maxWeight, weight, key, ws, prev) == Split(Yielded(ws), false)
  {
  }

  lemma {:induction false} SplitFromStep<T, K>(
    items: seq<T>, i: nat, maxWeight: real, weight: T -> real, key: T -> K, ws: Block<T>, prev: K)
    requires i < |items|
    ensures var w, k := weight(items[i]), key(items[i]);
      SplitFrom(items[i..], maxWeight, weight, key, ws, prev) ==
        if w < 0.0 then Split([], true)
        else if ws.weight + w > maxWeight || k != prev then
          var r := SplitFrom(items[i + 1..], maxWeight, weight, key, Block([items[i]], w), k);
          Split(Yielded(ws) + r.blocks, r.failed)
        else if w > 0.0 then
          SplitFrom(items[i + 1..], maxWeight, weight, key, Block(ws.items + [items[i]], ws.weight + w), k)
        else
          SplitFrom(items[i + 1..], maxWeight, weight, key, ws, k)
  {
    assert items[i..][0] == items[i] && items[i..][1..] == items[i + 1..];
  }

  // ----- what a partition is

  function Flat<T>(blocks: seq<Block<T>>): seq<T> {
    if blocks == [] then [] else blocks[0].items + Flat(blocks[1..])
  }

  function Total<T>(items: seq<T>, weight: T -> real): real {
    if items == [] then 0.0 else weight(items[0]) + Total(items[1..], weight)
  }

  /** `kept` is `items` in order, with only zero-weight items possibly missing. */
  ghost predicate Thinned<T>(kept: seq<T>, items: seq<T>, weight: T -> real) {
    if items == [] then kept == []
    else
      || (kept != [] && kept[0] == items[0] && Thinned(kept[1..], items[1..], weight))
      || (weight(items[0]) == 0.0 && Thinned(kept, items[1..], weight))
  }

  /** One key, the recorded weight is the sum of the item weights, zero weights only in front,
      and a block above the maximum weight is a single item. */
  ghost predicate GoodBlock<T, K>(b: Block<T>, maxWeight: real, weight: T -> real, key: T -> K) {
    && b.items != []
    && (forall j :: 0 <= j < |b.items| ==> key(b.items[j]) == key(b.items[0]))
    && b.weight == Total(b.items, weight)
    && (forall j :: 1 <= j < |b.items| ==> weight(b.items[j]) > 0.0)
    && (b.weight > maxWeight ==> |b.items| == 1)
  }

  /** The splitting is greedy: a block ends only because the key changes or because the
      next item would exceed the maximum weight. */
  ghost predicate Greedy<T, K>(blocks: seq<Block<T>>, maxWeight: real, weight: T -> real, key: T -> K) {
    forall i :: 0 <= i < |blocks| - 1 && SameKey(blocks[i], blocks[i + 1], key) ==>
      blocks[i].weight + weight(blocks[i + 1].items[0]) > maxWeight
  }

  ghost predicate SameKey<T, K>(a: Block<T>, b: Block<T>, key: T -> K) {
    a.items != [] && b.items != [] && key(a.items[0]) == key(b.items[0])
  }

  ghost predicate GoodBlocks<T, K>(blocks: seq<Block<T>>, maxWeight: real, weight: T -> real, key: T -> K) {
    && (forall i :: 0 <= i < |blocks| ==> GoodBlock(blocks[i], maxWeight, weight, key))
    && Greedy(blocks, maxWeight, weight, key)
  }

  // ----- block_splitter makes one

  lemma {:induction false} TotalAppend<T>(a: seq<T>, b: seq<T>, weight: T -> real)
    ensures Total(a + b, weight) == Total(a, weight) + Total(b, weight)
  {
    if a == [] {
      assert a + b == b;
    } else {
      assert (a + b)[1..] == a[1..] + b;
      TotalAppend(a[1..], b, weight);
    }
  }

  /** The open block is good, and it carries the last key seen. */
  ghost predicate Open<T, K>(ws: Block<T>, prev: K, maxWeight: real, weight: T -> real, key: T -> K) {
    if ws.items == [] then ws.weight == 0.0
    else GoodBlock(ws, maxWeight, weight, key) && key(ws.items[0]) == prev
  }

  /** The blocks partition what is in `ws` followed by the items. */
  ghost predicate Partition<T, K>(
    blocks: seq<Block<T>>, ws: Block<T>, items: seq<T>, maxWeight: real, weight: T -> real, key: T -> K) {
    && GoodBlocks(blocks, maxWeight, weight, key)
    && (ws.items != [] ==> blocks != [] && ws.items <= blocks[0].items)
    && ws.items <= Flat(blocks)
    && Thinned(Flat(blocks)[|ws.items|..], items, weight)
  }

  lemma {:induction false} SplitFromPartition<T, K>(
    items: seq<T>, maxWeight: real, weight: T -> real, key: T -> K, ws: Block<T>, prev: K)
    requires Open(ws, prev, maxWeight, weight, key)
    requires forall i :: 0 <= i < |items| ==> weight(items[i]) >= 0.0
    ensures var r := SplitFrom(items, maxWeight, weight, key, ws, prev);
      !r.failed && Partition(r.blocks, ws, items, maxWeight, weight, key)
    decreases |items|
  {
    hide Partition, GoodBlock;
    if items == [] {
      LastBlock(ws, prev, maxWeight, weight, key);
    } else {
      var item, rest := items[0], items[1..];
      var w, k := weight(item), key(item);
      assert forall i :: 0 <= i < |rest| ==> rest[i] == items[i + 1];
      if ws.weight + w > maxWeight || k != prev {
        var next := Block([item], w);
        NewBlock(item, maxWeight, weight, key);
        SplitFromPartition(rest, maxWeight, weight, key, next, k);
        CloseCase(items, SplitFrom(rest, maxWeight, weight, key, next, k).blocks, ws, prev, maxWeight, weight, key);
      } else if w > 0.0 {
        var more := Block(ws.items + [item], ws.weight + w);
        GrowBlock(ws, prev, item, maxWeight, weight, key);
        SplitFromPartition(rest, maxWeight, weight, key, more, k);
        GrowCase(items, SplitFrom(rest, maxWeight, weight, key, more, k).blocks, ws, maxWeight, weight, key);
      } else {
        SplitFromPartition(rest, maxWeight, weight, key, ws, k);
        DropCase(items, SplitFrom(rest, maxWeight, weight, key, ws, k).blocks, ws, maxWeight, weight, key);
      }
    }
  }

  lemma {:induction false} LastBlock<T, K>(ws: Block<T>, prev: K, maxWeight: real, weight: T -> real, key: T -> K)
    requires Open(ws, prev, maxWeight, weight, key)
    ensures Partition(Yielded(ws), ws, [], maxWeight, weight, key)
  {
    FlatYielded(ws);
  }

  lemma {:induction false} NewBlock<T, K>(item: T, maxWeight: real, weight: T -> real, key: T -> K)
    requires weight(item) >= 0.0
    ensures Open(Block([item], weight(item)), key(item), maxWeight, weight, key)
  {
    assert Total([item], weight) == weight(item) + Total<T>([], weight);
  }

  lemma {:induction false} GrowBlock<T, K>(
    ws: Block<T>, prev: K, item: T, maxWeight: real, weight: T -> real, key: T -> K)
    requires Open(ws, prev, maxWeight, weight, key) && key(item) == prev
    requires weight(item) > 0.0 && ws.weight + weight(item) <= maxWeight
    ensures Open(Block(ws.items + [item], ws.weight + weight(item)), prev, maxWeight, weight, key)
  {
    TotalAppend(ws.items, [item], weight);
    assert Total([item], weight) == weight(item) + Total<T>([], weight);
  }

  lemma {:induction false} CloseCase<T, K>(items: seq<T>, blocks: seq<Block<T>>, ws: Block<T>, prev: K,
                                           maxWeight: real, weight: T -> real, key: T -> K)
    requires items != [] && Open(ws, prev, maxWeight, weight, key)
    requires ws.weight + weight(items[0]) > maxWeight || key(items[0]) != prev
    requires Partition(blocks, Block([items[0]], weight(items[0])), items[1..], maxWeight, weight, key)
    ensures Partition(Yielded(ws) + blocks, ws, items, maxWeight, weight, key)
  {
    hide GoodBlock, GoodBlocks;
    assert blocks[0].items[0] == items[0];
    CloseBlock(ws, blocks, maxWeight, weight, key);
    FlatYielded(ws);
    FlatAppend(Yielded(ws), blocks);
    var kept := Flat(Yielded(ws) + blocks)[|ws.items|..];
    assert kept == Flat(blocks);
    assert kept[0] == items[0] && kept[1..] == Flat(blocks)[1..];
  }

  lemma {:induction false} GrowCase<T, K>(items: seq<T>, blocks: seq<Block<T>>, ws: Block<T>,
                                          maxWeight: real, weight: T -> real, key: T -> K)
    requires items != []
    requires Partition(blocks, Block(ws.items + [items[0]], ws.weight + weight(items[0])), items[1..], maxWeight,
      weight, key)
    ensures Partition(blocks, ws, items, maxWeight, weight, key)
  {
    hide GoodBlocks;
    var more := ws.items + [items[0]];
    var kept := Flat(blocks)[|ws.items|..];
    assert ws.items <= more;
    assert Flat(blocks)[|ws.items|] == more[|ws.items|] == items[0];
    assert kept[0] == items[0] && kept[1..] == Flat(blocks)[|more|..];
  }

  lemma {:induction false} DropCase<T, K>(items: seq<T>, blocks: seq<Block<T>>, ws: Block<T>,
                                          maxWeight: real, weight: T -> real, key: T -> K)
    requires items != [] && weight(items[0]) == 0.0
    requires Partition(blocks, ws, items[1..], maxWeight, weight, key)
    ensures Partition(blocks, ws, items, maxWeight, weight, key)
  {
    hide GoodBlocks, Flat;
  }

  lemma {:induction false} FlatAppend<T>(a: seq<Block<T>>, b: seq<Block<T>>)
    ensures Flat(a + b) == Flat(a) + Flat(b)
  {
    if a == [] {
      assert a + b == b;
    } else {
      assert (a + b)[1..] == a[1..] + b;
      FlatAppend(a[1..], b);
    }
  }

  lemma {:induction false} FlatYielded<T>(ws: Block<T>)
    ensures Flat(Yielded(ws)) == ws.items
  {
    if ws.items != [] {
      assert [ws][1..] == [];
    }
  }

  lemma {:induction false} CloseBlock<T, K>(
    ws: Block<T>, blocks: seq<Block<T>>, maxWeight: real, weight: T -> real, key: T -> K)
    requires ws.items != [] ==> GoodBlock(ws, maxWeight, weight, key)
    requires GoodBlocks(blocks, maxWeight, weight, key) && blocks != []
    requires ws.items != [] && key(ws.items[0]) == key(blocks[0].items[0]) ==>
      ws.weight + weight(blocks[0].items[0]) > maxWeight
    ensures GoodBlocks(Yielded(ws) + blocks, maxWeight, weight, key)
  {
    var bs := Yielded(ws) + blocks;
    if ws.items != [] {
      assert bs[0] == ws;
      assert forall i :: 1 <= i < |bs| ==> bs[i] == blocks[i - 1];
    } else {
      assert bs == blocks;
    }
  }

  /** `block_splitter` partitions its input, for every input without negative weights. */
  lemma {:induction false} SplitterPartitions<T, K>(
    items: seq<T>, maxWeight: real, weight: T -> real, key: T -> K, unspecified: K)
    requires maxWeight > 0.0
    requires forall i :: 0 <= i < |items| ==> weight(items[i]) >= 0.0
    ensures var blocks := SplitBlocks(items, maxWeight, weight, key, unspecified).blocks;
      && GoodBlocks(blocks, maxWeight, weight, key)
      && Thinned(Flat(blocks), items, weight)
  {
    SplitFromPartition(items, maxWeight, weight, key, Block([], 0.0), unspecified);
    var flat := Flat(SplitBlocks(items, maxWeight, weight, key, unspecified).blocks);
    assert flat[0..] == flat;
  }

  lemma {:induction false} SplitFromFails<T, K>(
    items: seq<T>, maxWeight: real, weight: T -> real, key: T -> K, ws: Block<T>, prev: K)
    ensures SplitFrom(items, maxWeight, weight, key, ws, prev).failed <==>
            exists i :: 0 <= i < |items| && weight(items[i]) < 0.0
    decreases |items|
  {
    if items != [] && weight(items[0]) >= 0.0 {
      var item, rest := items[0], items[1..];
      SplitFromFails(rest, maxWeight, weight, key, Block([item], weight(item)), key(item));
      SplitFromFails(rest, maxWeight, weight, key, Block(ws.items + [item], ws.weight + weight(item)), key(item));
      SplitFromFails(rest, maxWeight, weight, key, ws, key(item));
      if i :| 0 <= i < |items| && weight(items[i]) < 0.0 {
        assert rest[i - 1] == items[i];
      }
    }
  }

  /** The splitter raises exactly on a maximum that is not positive or a negative weight. */
  lemma {:induction false} SplitterFailsIff<T, K>(
    items: seq<T>, maxWeight: real, weight: T -> real, key: T -> K, unspecified: K)
    ensures SplitBlocks(items, maxWeight, weight, key, unspecified).failed <==>
            maxWeight <= 0.0 || exists i :: 0 <= i < |items| && weight(items[i]) < 0.0
  {
    SplitFromFails(items, maxWeight, weight, key, Block([], 0.0), unspecified);
  }

  // ----- which items survive

  /** The guard that opens a block at item i: a new key, or a previous item above the maximum
      weight (with no weight of its own, item i cannot be the one that exceeds it). */
  predicate Opens<T, K(==)>(items: seq<T>, i: nat, maxWeight: real, weight: T -> real, key: T -> K, unspecified: K)
    requires i < |items|
  {
    if i == 0 then key(items[0]) != unspecified
    else key(items[i]) != key(items[i - 1]) || weight(items[i - 1]) > maxWeight
  }

  /** The first n items without those of weight zero that open no block. */
  function Survivors<T, K(==)>(
    items: seq<T>, n: nat, maxWeight: real, weight: T -> real, key: T -> K, unspecified: K): seq<T>
    requires n <= |items|
  {
    if n == 0 then []
    else
      var r := Survivors(items, n - 1, maxWeight, weight, key, unspecified);
      if weight(items[n - 1]) > 0.0 || Opens(items, n - 1, maxWeight, weight, key, unspecified) then r + [items[n - 1]]
      else r
  }

  /** What is known about the open block before item n. */
  ghost predicate Reached<T, K>(
    items: seq<T>, n: nat, ws: Block<T>, prev: K, maxWeight: real, weight: T -> real, key: T -> K, unspecified: K)
    requires n <= |items|
  {
    && ws.weight >= 0.0
    && (n == 0 ==> prev == unspecified && ws.weight <= maxWeight)
    && (n > 0 ==> prev == key(items[n - 1]) && (ws.weight > maxWeight <==> weight(items[n - 1]) > maxWeight))
  }

  lemma {:induction false} ReachedNext<T, K>(
    items: seq<T>, n: nat, ws: Block<T>, prev: K, maxWeight: real, weight: T -> real, key: T -> K, unspecified: K)
    requires n < |items| && maxWeight > 0.0 && weight(items[n]) >= 0.0
    requires Reached(items, n, ws, prev, maxWeight, weight, key, unspecified)
    ensures var w, k := weight(items[n]), key(items[n]);
      var s, next := Survivors(items, n, maxWeight, weight, key, unspecified),
                     Survivors(items, n + 1, maxWeight, weight, key, unspecified);
      if ws.weight + w > maxWeight || k != prev then
        Reached(items, n + 1, Block([items[n]], w), k, maxWeight, weight, key, unspecified) && next == s + [items[n]]
      else if w > 0.0 then
        && Reached(items, n + 1, Block(ws.items + [items[n]], ws.weight + w), k, maxWeight, weight, key, unspecified)
        && next == s + [items[n]]
      else
        Reached(items, n + 1, ws, k, maxWeight, weight, key, unspecified) && next == s
  {
  }

  lemma {:induction false} SplitFromSurvivors<T, K>(
    items: seq<T>, n: nat, maxWeight: real, weight: T -> real, key: T -> K, unspecified: K, ws: Block<T>, prev: K,
    closed: seq<T>)
    requires n <= |items| && maxWeight > 0.0
    requires forall i :: 0 <= i < |items| ==> weight(items[i]) >= 0.0
    requires Reached(items, n, ws, prev, maxWeight, weight, key, unspecified)
    requires closed + ws.items == Survivors(items, n, maxWeight, weight, key, unspecified)
    ensures closed + Flat(SplitFrom(items[n..], maxWeight, weight, key, ws, prev).blocks) ==
            Survivors(items, |items|, maxWeight, weight, key, unspecified)
    decreases |items| - n
  {
    hide Flat, SplitFrom, Survivors, Reached;
    FlatYielded(ws);
    if n == |items| {
      SplitFromEnd(items[n..], maxWeight, weight, key, ws, prev);
    } else {
      ReachedNext(items, n, ws, prev, maxWeight, weight, key, unspecified);
      var item := items[n];
      var w, k := weight(item), key(item);
      SplitFromStep(items, n, maxWeight, weight, key, ws, prev);
      if ws.weight + w > maxWeight || k != prev {
        var next := SplitFrom(items[n + 1..], maxWeight, weight, key, Block([item], w), k).blocks;
        FlatAppend(Yielded(ws), next);
        SplitFromSurvivors(items, n + 1, maxWeight, weight, key, unspecified, Block([item], w), k, closed + ws.items);
        assert closed + (ws.items + Flat(next)) == (closed + ws.items) + Flat(next);
      } else if w > 0.0 {
        assert closed + (ws.items + [item]) == (closed + ws.items) + [item];
        SplitFromSurvivors(items, n + 1, maxWeight, weight, key, unspecified, Block(ws.items + [item], ws.weight + w),
          k, closed);
      } else {
        SplitFromSurvivors(items, n + 1, maxWeight, weight, key, unspecified, ws, k, closed);
      }
    }
  }

  /** An item of weight zero is kept if and only if it opens a block: its key is not the one of
      the item before (or the initial one), or the item before is above the maximum weight.
      All the others are kept, in order. */
  lemma {:induction false} KeptIff<T, K>(items: seq<T>, maxWeight: real, weight: T -> real, key: T -> K, unspecified: K)
    requires maxWeight > 0.0
    requires forall i :: 0 <= i < |items| ==> weight(items[i]) >= 0.0
    ensures Flat(SplitBlocks(items, maxWeight, weight, key, unspecified).blocks) ==
            Survivors(items, |items|, maxWeight, weight, key, unspecified)
  {
    SplitFromSurvivors(items, 0, maxWeight, weight, key, unspecified, Block([], 0.0), unspecified, []);
    assert items[0..] == items;
  }

  function Heavy<T>(items: seq<T>, weight: T -> real): seq<T> {
    if items == [] then []
    else
      var n := |items| - 1;
      if weight(items[n]) > 0.0 then Heavy(items[..n], weight) + [items[n]] else Heavy(items[..n], weight)
  }

  lemma {:induction false} SurvivorsHeavy<T, K>(
    items: seq<T>, n: nat, maxWeight: real, weight: T -> real, key: T -> K, unspecified: K)
    requires n <= |items|
    ensures var s, h := Survivors(items, n, maxWeight, weight, key, unspecified), Heavy(items[..n], weight);
      && |s| >= |h|
      && (s == h <==> forall i :: 0 <= i < n && Opens(items, i, maxWeight, weight, key, unspecified) ==>
           weight(items[i]) > 0.0)
      && (s != h ==> |s| > |h|)
  {
    if n > 0 {
      SurvivorsHeavy(items, n - 1, maxWeight, weight, key, unspecified);
      assert items[..n][..n - 1] == items[..n - 1];
    }
  }

  /** "Items with weight zero are ignored" if and only if no item of weight zero opens a block. */
  lemma {:induction false} ZeroIgnoredIff<T, K>(
    items: seq<T>, maxWeight: real, weight: T -> real, key: T -> K, unspecified: K)
    requires maxWeight > 0.0
    requires forall i :: 0 <= i < |items| ==> weight(items[i]) >= 0.0
    ensures Flat(SplitBlocks(items, maxWeight, weight, key, unspecified).blocks) == Heavy(items, weight) <==>
            forall i :: 0 <= i < |items| && Opens(items, i, maxWeight, weight, key, unspecified) ==>
              weight(items[i]) > 0.0
  {
    hide SplitBlocks, Flat, Survivors, Heavy;
    KeptIff(items, maxWeight, weight, key, unspecified);
    SurvivorsHeavy(items, |items|, maxWeight, weight, key, unspecified);
    assert items[..|items|] == items;
  }

  /** An item of weight zero with a new key is not ignored, and neither is one with the same key
      after an item above the maximum weight. */
  lemma {:induction false} ZeroKeptWitness()
    ensures SplitBlocks([7], 1.0, (x: int) => 0.0, (x: int) => x, 0).blocks == [Block([7], 0.0)]
    ensures SplitBlocks([9, 0], 1.0, (x: int) => x as real, (x: int) => 1, 1).blocks ==
      [Block([9], 9.0), Block([0], 0.0)]
  {
    var key := (x: int) => x;
    assert [7][1..] == [];
    assert SplitFrom([7], 1.0, (x: int) => 0.0, key, Block([], 0.0), 0) == Split([] + [Block([7], 0.0)], false);
    var weight, one := (x: int) => x as real, (x: int) => 1;
    assert [9, 0][1..] == [0] && [0][1..] == [];
    assert SplitFrom([0], 1.0, weight, one, Block([9], 9.0), 1) == Split([Block([9], 9.0)] + [Block([0], 0.0)], false);
    assert SplitFrom([9, 0], 1.0, weight, one, Block([], 0.0), 1) ==
      Split([] + [Block([9], 9.0), Block([0], 0.0)], false);
  }

  lemma {:induction false} ThinnedFacts<T>(kept: seq<T>, items: seq<T>, weight: T -> real)
    requires Thinned(kept, items, weight)
    ensures Total(kept, weight) == Total(items, weight)
    ensures forall x :: x in kept ==> x in items
    ensures forall x :: x in items && weight(x) != 0.0 ==> x in kept
    ensures (forall i :: 0 <= i < |items| ==> weight(items[i]) != 0.0) ==> kept == items
    decreases |items|
  {
    if items != [] {
      var rest := items[1..];
      assert forall i :: 0 <= i < |rest| ==> rest[i] == items[i + 1];
      assert forall x :: x in items <==> x == items[0] || x in rest;
      if kept != [] && kept[0] == items[0] && Thinned(kept[1..], rest, weight) {
        ThinnedFacts(kept[1..], rest, weight);
        assert kept == [kept[0]] + kept[1..] && items == [items[0]] + rest;
      } else {
        ThinnedFacts(kept, rest, weight);
      }
    }
  }

  // ----- split_in_blocks

  /** The order of the sort key (key(item), weight(item)); keys are ranked by integers. */
  predicate Before<T>(a: T, b: T, key: T -> int, weight: T -> real) {
    key(a) < key(b) || (key(a) == key(b) && weight(a) < weight(b))
  }

  function Insort<T>(x: T, s: seq<T>, key: T -> int, weight: T -> real): seq<T> {
    if s == [] then [x]
    else if Before(s[0], x, key, weight) then [s[0]] + Insort(x, s[1..], key, weight)
    else [x] + s
  }

  /** The stable sort by (key, weight). */
  function Sorted<T>(s: seq<T>, key: T -> int, weight: T -> real): seq<T> {
    if s == [] then [] else Insort(s[0], Sorted(s[1..], key, weight), key, weight)
  }

  /** The groups of consecutive items with the same key. */
  function Groups<T>(s: seq<T>, key: T -> int): seq<seq<T>> {
    if s == [] then []
    else
      var r := Groups(s[1..], key);
      if |s| > 1 && key(s[0]) == key(s[1]) && r != [] then [[s[0]] + r[0]] + r[1..]
      else [[s[0]]] + r
  }

  function ItemsOf<T>(blocks: seq<Block<T>>): seq<seq<T>> {
    seq(|blocks|, i requires 0 <= i < |blocks| => blocks[i].items)
  }

  /** Split a generic sequence; None stands for the exception. */
  function SplitInBlocks<T>(
    s: seq<T>, hint: int, weight: T -> real, key: T -> int, nokey: bool, unspecified: int): Option<seq<seq<T>>> {
    if (hint == 0 || hint == 1) && nokey then
      Some([s])
    else if hint == 0 || hint == 1 then
      Some(Groups(Sorted(s, key, x => 0.0), key))
    else
      var items := Sorted(s, key, weight);
      if hint <= 0 || items == [] then None
      else
        var r := SplitBlocks(items, Total(items, weight) / hint as real, weight, key, unspecified);
        if r.failed then None else Some(ItemsOf(r.blocks))
  }

  ghost predicate KeySorted<T>(s: seq<T>, key: T -> int) {
    forall i, j :: 0 <= i < j < |s| ==> key(s[i]) <= key(s[j])
  }

  ghost function Keys<T>(s: seq<T>, key: T -> int): set<int> {
    set x | x in s :: key(x)
  }

  lemma {:induction false} InsortPermutes<T>(x: T, s: seq<T>, key: T -> int, weight: T -> real)
    ensures multiset(Insort(x, s, key, weight)) == multiset([x] + s)
  {
    if s != [] && Before(s[0], x, key, weight) {
      InsortPermutes(x, s[1..], key, weight);
      assert s == [s[0]] + s[1..];
    }
  }

  /** By key, and inside a key by weight. */
  ghost predicate Ascending<T>(s: seq<T>, key: T -> int, weight: T -> real) {
    forall i, j :: 0 <= i < j < |s| ==>
      key(s[i]) < key(s[j]) || (key(s[i]) == key(s[j]) && weight(s[i]) <= weight(s[j]))
  }

  lemma {:induction false} ConsAscending<T>(x: T, s: seq<T>, key: T -> int, weight: T -> real)
    requires Ascending(s, key, weight) && forall y :: y in s ==> !Before(y, x, key, weight)
    ensures Ascending([x] + s, key, weight)
  {
    var r := [x] + s;
    forall i, j | 0 <= i < j < |r| ensures !Before(r[j], r[i], key, weight) {
      assert r[j] == s[j - 1] && r[j] in s;
      assert i > 0 ==> r[i] == s[i - 1];
    }
  }

  lemma {:induction false} TailAscending<T>(s: seq<T>, key: T -> int, weight: T -> real)
    requires Ascending(s, key, weight) && s != []
    ensures Ascending(s[1..], key, weight) && forall y :: y in s[1..] ==> !Before(y, s[0], key, weight)
  {
    var r := s[1..];
    assert forall i :: 0 <= i < |r| ==> r[i] == s[i + 1];
  }

  lemma {:induction false} InsortAscends<T>(x: T, s: seq<T>, key: T -> int, weight: T -> real)
    requires Ascending(s, key, weight)
    ensures Ascending(Insort(x, s, key, weight), key, weight)
  {
    if s != [] {
      TailAscending(s, key, weight);
      if Before(s[0], x, key, weight) {
        InsortAscends(x, s[1..], key, weight);
        InsortPermutes(x, s[1..], key, weight);
        var r := Insort(x, s[1..], key, weight);
        forall y | y in r ensures !Before(y, s[0], key, weight) {
          assert y in multiset(r);
          assert y in [x] + s[1..];
        }
        ConsAscending(s[0], r, key, weight);
      } else {
        assert forall y :: y in s ==> y == s[0] || y in s[1..];
        ConsAscending(x, s, key, weight);
      }
    }
  }

  /** The items with a given key and weight. */
  function Ties<T>(s: seq<T>, k: int, w: real, key: T -> int, weight: T -> real): seq<T> {
    if s == [] then []
    else (if key(s[0]) == k && weight(s[0]) == w then [s[0]] else []) + Ties(s[1..], k, w, key, weight)
  }

  lemma {:induction false} TiesCons<T>(x: T, s: seq<T>, k: int, w: real, key: T -> int, weight: T -> real)
    ensures Ties([x] + s, k, w, key, weight) ==
            (if key(x) == k && weight(x) == w then [x] else []) + Ties(s, k, w, key, weight)
  {
    assert ([x] + s)[1..] == s;
  }

  lemma {:induction false} InsortStable<T>(x: T, s: seq<T>, k: int, w: real, key: T -> int, weight: T -> real)
    ensures Ties(Insort(x, s, key, weight), k, w, key, weight) == Ties([x] + s, k, w, key, weight)
  {
    hide Ties;
    if s != [] && Before(s[0], x, key, weight) {
      InsortStable(x, s[1..], k, w, key, weight);
      TiesCons(s[0], Insort(x, s[1..], key, weight), k, w, key, weight);
      TiesCons(x, s[1..], k, w, key, weight);
      TiesCons(x, s, k, w, key, weight);
      TiesCons(s[0], s[1..], k, w, key, weight);
      assert s == [s[0]] + s[1..];
    } else {
      assert Insort(x, s, key, weight) == [x] + s;
    }
  }

  /** Sorting permutes the items, orders them by key and inside a key by weight, and leaves those
      with the same key and weight in the order they had. */
  lemma {:induction false} SortedFacts<T>(s: seq<T>, key: T -> int, weight: T -> real)
    ensures var r := Sorted(s, key, weight);
      && multiset(r) == multiset(s) && KeySorted(r, key) && Ascending(r, key, weight)
      && forall k: int, w: real :: Ties(r, k, w, key, weight) == Ties(s, k, w, key, weight)
  {
    if s != [] {
      SortedFacts(s[1..], key, weight);
      var r := Sorted(s[1..], key, weight);
      InsortAscends(s[0], r, key, weight);
      InsortPermutes(s[0], r, key, weight);
      assert s == [s[0]] + s[1..];
      forall k: int, w: real
        ensures Ties(Sorted(s, key, weight), k, w, key, weight) == Ties(s, k, w, key, weight)
      {
        InsortStable(s[0], r, k, w, key, weight);
        TiesCons(s[0], r, k, w, key, weight);
        TiesCons(s[0], s[1..], k, w, key, weight);
      }
    }
  }

  lemma {:induction false} SortedKeys<T>(s: seq<T>, key: T -> int, weight: T -> real)
    ensures multiset(Sorted(s, key, weight)) == multiset(s) && KeySorted(Sorted(s, key, weight), key)
  {
    SortedFacts(s, key, weight);
  }

  lemma {:induction false} SameElements<T>(a: seq<T>, b: seq<T>)
    requires multiset(a) == multiset(b)
    ensures forall x :: x in a <==> x in b
    ensures |a| == |b|
  {
    assert forall x :: x in a <==> x in multiset(a);
    assert |a| == |multiset(a)| && |b| == |multiset(b)|;
  }

  /** How many disjoint pairs of adjacent same-key blocks there are, from the left. */
  ghost function Pairs<T>(bs: seq<Block<T>>, key: T -> int): nat {
    if |bs| < 2 then 0
    else if SameKey(bs[0], bs[1], key) then 1 + Pairs(bs[2..], key)
    else Pairs(bs[1..], key)
  }

  lemma {:induction false} GoodTail<T>(bs: seq<Block<T>>, n: nat, maxWeight: real, weight: T -> real, key: T -> int)
    requires GoodBlocks(bs, maxWeight, weight, key) && n <= |bs|
    ensures GoodBlocks(bs[n..], maxWeight, weight, key)
  {
    hide GoodBlock;
    var rest := bs[n..];
    assert forall i :: 0 <= i < |rest| ==> rest[i] == bs[i + n];
  }

  lemma {:induction false} FlatTail<T>(bs: seq<Block<T>>)
    requires |bs| >= 2
    ensures Flat(bs) == bs[0].items + (bs[1].items + Flat(bs[2..]))
  {
    assert bs[1..][1..] == bs[2..];
  }

  lemma {:induction false} PairWeighs<T>(a: Block<T>, b: Block<T>, maxWeight: real, weight: T -> real, key: T -> int)
    requires GoodBlock(a, maxWeight, weight, key) && GoodBlock(b, maxWeight, weight, key)
    requires a.weight + weight(b.items[0]) > maxWeight
    requires forall x :: x in b.items ==> weight(x) >= 0.0
    ensures Total(a.items, weight) + Total(b.items, weight) > maxWeight
  {
    assert forall x :: x in b.items[1..] ==> x in b.items;
    TotalNonNegative(b.items[1..], weight);
  }

  lemma {:induction false} PairsSkip<T>(bs: seq<Block<T>>, key: T -> int)
    requires |bs| > 0 && (|bs| == 1 || !SameKey(bs[0], bs[1], key))
    ensures Pairs(bs, key) == Pairs(bs[1..], key)
  {
  }

  lemma {:induction false} PairsTake<T>(bs: seq<Block<T>>, key: T -> int)
    requires |bs| > 1 && SameKey(bs[0], bs[1], key)
    ensures Pairs(bs, key) == 1 + Pairs(bs[2..], key)
  {
  }

  lemma {:induction false} FlatStep<T>(bs: seq<Block<T>>)
    requires bs != []
    ensures Flat(bs) == bs[0].items + Flat(bs[1..])
  {
  }

  lemma {:induction false} PairsWeigh<T>(bs: seq<Block<T>>, maxWeight: real, weight: T -> real, key: T -> int)
    requires GoodBlocks(bs, maxWeight, weight, key)
    requires forall x :: x in Flat(bs) ==> weight(x) >= 0.0
    ensures Times(Pairs(bs, key), maxWeight) <= Total(Flat(bs), weight)
    ensures Pairs(bs, key) > 0 ==> Times(Pairs(bs, key), maxWeight) < Total(Flat(bs), weight)
    decreases |bs|
  {
    if |bs| > 0 {
      hide GoodBlocks, GoodBlock, Pairs, Flat, Total, Times;
      if |bs| == 1 || !SameKey(bs[0], bs[1], key) {
        FlatStep(bs);
        PairsSkip(bs, key);
        GoodTail(bs, 1, maxWeight, weight, key);
        TotalAppend(bs[0].items, Flat(bs[1..]), weight);
        TotalNonNegative(bs[0].items, weight);
        PairsWeigh(bs[1..], maxWeight, weight, key);
      } else {
        FlatTail(bs);
        PairsTake(bs, key);
        FirstPairWeighs(bs, maxWeight, weight, key);
        GoodTail(bs, 2, maxWeight, weight, key);
        TotalAppend(bs[0].items, bs[1].items + Flat(bs[2..]), weight);
        TotalAppend(bs[1].items, Flat(bs[2..]), weight);
        PairsWeigh(bs[2..], maxWeight, weight, key);
        OneMore(Pairs(bs[2..], key), maxWeight);
      }
    }
  }

  function Times(n: nat, x: real): real {
    n as real * x
  }

  lemma {:induction false} OneMore(n: nat, x: real)
    ensures Times(1 + n, x) == x + Times(n, x)
  {
  }

  lemma {:induction false} FirstPairWeighs<T>(bs: seq<Block<T>>, maxWeight: real, weight: T -> real, key: T -> int)
    requires GoodBlocks(bs, maxWeight, weight, key)
    requires |bs| >= 2 && SameKey(bs[0], bs[1], key)
    requires forall x :: x in Flat(bs) ==> weight(x) >= 0.0
    ensures Total(bs[0].items, weight) + Total(bs[1].items, weight) > maxWeight
  {
    FlatTail(bs);
    PairWeighs(bs[0], bs[1], maxWeight, weight, key);
  }

  lemma {:induction false} TotalNonNegative<T>(s: seq<T>, weight: T -> real)
    requires forall x :: x in s ==> weight(x) >= 0.0
    ensures Total(s, weight) >= 0.0
  {
    if s != [] {
      TotalNonNegative(s[1..], weight);
    }
  }

  lemma {:induction false} SuffixKeys<T>(s: seq<T>, n: nat, key: T -> int)
    requires n <= |s| && KeySorted(s, key)
    ensures KeySorted(s[n..], key)
    ensures Keys(s[n..], key) <= Keys(s, key)
    ensures |Keys(s[n..], key)| <= |Keys(s, key)|
    ensures 0 < n < |s| && key(s[0]) != key(s[n]) ==> |Keys(s[n..], key)| < |Keys(s, key)|
    ensures 0 < n == |s| ==> |Keys(s[n..], key)| < |Keys(s, key)|
  {
    var r := s[n..];
    assert forall i :: 0 <= i < |r| ==> r[i] == s[i + n];
    var ks, ks' := Keys(s, key), Keys(r, key);
    SubsetSize(ks', ks);
    if n > 0 && (n == |s| || key(s[0]) != key(s[n])) {
      assert key(s[0]) in ks by { assert s[0] in s; }
      assert forall i :: 0 <= i < |r| ==> key(r[0]) <= key(r[i]);
      assert key(s[0]) !in ks';
      SubsetSize(ks' + {key(s[0])}, ks);
    }
  }

  lemma {:induction false} CountByPairs<T>(bs: seq<Block<T>>, maxWeight: real, weight: T -> real, key: T -> int)
    requires GoodBlocks(bs, maxWeight, weight, key)
    requires KeySorted(Flat(bs), key)
    ensures |bs| <= 2 * Pairs(bs, key) + |Keys(Flat(bs), key)|
    decreases |bs|
  {
    hide GoodBlocks, KeySorted;
    if bs != [] {
      NonEmptyBlocks(bs, maxWeight, weight, key);
      if |bs| >= 2 && SameKey(bs[0], bs[1], key) {
        FlatTail(bs);
        var n := |bs[0].items| + |bs[1].items|;
        assert Flat(bs)[n..] == Flat(bs[2..]);
        SuffixKeys(Flat(bs), n, key);
        GoodTail(bs, 2, maxWeight, weight, key);
        CountByPairs(bs[2..], maxWeight, weight, key);
      } else {
        var n := |bs[0].items|;
        assert Flat(bs)[n..] == Flat(bs[1..]);
        if |bs| >= 2 {
          FlatTail(bs);
          assert Flat(bs)[n] == bs[1].items[0];
        }
        SuffixKeys(Flat(bs), n, key);
        GoodTail(bs, 1, maxWeight, weight, key);
        CountByPairs(bs[1..], maxWeight, weight, key);
      }
    }
  }

  lemma {:induction false} NonEmptyBlocks<T>(bs: seq<Block<T>>, maxWeight: real, weight: T -> real, key: T -> int)
    requires GoodBlocks(bs, maxWeight, weight, key)
    ensures forall i :: 0 <= i < |bs| ==> bs[i].items != []
  {
  }

  lemma {:induction false} SubsetSize<X>(a: set<X>, b: set<X>)
    requires a <= b
    ensures |a| <= |b|
  {
    if a != {} {
      var x :| x in a;
      SubsetSize(a - {x}, b - {x});
    }
  }

  lemma {:induction false} ThinnedSorted<T>(kept: seq<T>, items: seq<T>, weight: T -> real, key: T -> int)
    requires Thinned(kept, items, weight) && KeySorted(items, key)
    ensures KeySorted(kept, key)
    decreases |items|
  {
    if items != [] {
      var rest := items[1..];
      assert KeySorted(rest, key);
      if kept != [] && kept[0] == items[0] && Thinned(kept[1..], rest, weight) {
        ThinnedSorted(kept[1..], rest, weight, key);
        ThinnedFacts(kept[1..], rest, weight);
        forall i, j | 0 <= i < j < |kept| ensures key(kept[i]) <= key(kept[j]) {
          if i == 0 {
            assert kept[j] == kept[1..][j - 1] && kept[1..][j - 1] in rest;
            var n :| 0 <= n < |rest| && rest[n] == kept[j];
            assert items[n + 1] == rest[n];
          } else {
            assert kept[i] == kept[1..][i - 1] && kept[j] == kept[1..][j - 1];
          }
        }
      } else {
        ThinnedSorted(kept, rest, weight, key);
      }
    }
  }

  /** The blocks of a generic sequence when the hint is above 1. */
  lemma {:induction false} SplitInBlocksFacts<T>(
    s: seq<T>, hint: int, weight: T -> real, key: T -> int, nokey: bool, unspecified: int)
    requires hint > 1
    requires forall x :: x in s ==> weight(x) >= 0.0
    ensures var r := SplitInBlocks(s, hint, weight, key, nokey, unspecified);
      var items := Sorted(s, key, weight);
      var blocks := SplitBlocks(items, Total(items, weight) / hint as real, weight, key, unspecified).blocks;
      && (r.Some? <==> Total(items, weight) > 0.0)
      && (r.Some? ==> r.value == ItemsOf(blocks))
      && (r.Some? ==> GoodBlocks(blocks, Total(items, weight) / hint as real, weight, key))
      && (r.Some? ==> Thinned(Flat(blocks), items, weight))
  {
    hide KeySorted, GoodBlocks, Thinned, Sorted, SplitBlocks, ItemsOf;
    var items := Sorted(s, key, weight);
    var maxWeight := Total(items, weight) / hint as real;
    SortedKeys(s, key, weight);
    SameElements(items, s);
    TotalNonNegative(items, weight);
    QuotientSign(Total(items, weight), hint);
    assert items == [] ==> Total(items, weight) == 0.0;
    SplitterFailsIff(items, maxWeight, weight, key, unspecified);
    assert forall i :: 0 <= i < |items| ==> items[i] in items && items[i] in s;
    if maxWeight > 0.0 {
      SplitterPartitions(items, maxWeight, weight, key, unspecified);
    }
  }

  lemma {:induction false} QuotientSign(total: real, hint: int)
    requires hint > 0
    ensures total / hint as real > 0.0 <==> total > 0.0
  {
  }

  lemma {:induction false} FewerKeys<T>(a: seq<T>, b: seq<T>, key: T -> int)
    requires forall x :: x in a ==> x in b
    ensures |Keys(a, key)| <= |Keys(b, key)|
  {
    SubsetSize(Keys(a, key), Keys(b, key));
  }

  /** At most 2 * hint - 2 blocks more than there are distinct keys. */
  lemma {:induction false} BlockCountBound<T>(
    s: seq<T>, hint: int, weight: T -> real, key: T -> int, nokey: bool, unspecified: int)
    requires hint > 1
    requires forall x :: x in s ==> weight(x) >= 0.0
    requires Total(Sorted(s, key, weight), weight) > 0.0
    ensures var r := SplitInBlocks(s, hint, weight, key, nokey, unspecified);
      r.Some? && |r.value| <= 2 * hint - 2 + |Keys(s, key)|
  {
    hide KeySorted, GoodBlocks, Thinned, Sorted, SplitBlocks, SplitInBlocks, Pairs, Keys, Times, Flat;
    var items := Sorted(s, key, weight);
    var total := Total(items, weight);
    var maxWeight := total / hint as real;
    var blocks := SplitBlocks(items, maxWeight, weight, key, unspecified).blocks;
    SplitInBlocksFacts(s, hint, weight, key, nokey, unspecified);
    SortedKeys(s, key, weight);
    SameElements(items, s);
    ThinnedFacts(Flat(blocks), items, weight);
    ThinnedSorted(Flat(blocks), items, weight, key);
    CountByPairs(blocks, maxWeight, weight, key);
    PairsWeigh(blocks, maxWeight, weight, key);
    FewerKeys(Flat(blocks), s, key);
    QuotientTimes(total, hint);
    FewPairs(Pairs(blocks, key), hint, total, maxWeight);
  }

  lemma {:induction false} FewPairs(pairs: nat, hint: int, total: real, m: real)
    requires hint > 1 && total > 0.0 && m >= 0.0 && Times(hint, m) == total
    requires pairs > 0 ==> Times(pairs, m) < total
    ensures pairs <= hint - 1
  {
    Scale(pairs, hint, m);
  }

  lemma {:induction false} QuotientTimes(total: real, hint: int)
    requires hint > 0 && total > 0.0
    ensures Times(hint, total / hint as real) == total && total / hint as real >= 0.0
  {
  }

  lemma {:induction false} Scale(a: int, b: int, m: real)
    requires m >= 0.0
    ensures a >= b ==> a as real * m >= b as real * m
  {
    assert a >= b ==> (a - b) as real * m >= 0.0;
    assert a as real * m == b as real * m + (a - b) as real * m;
  }

  ghost predicate Alike<T>(s: seq<T>, weight: T -> real, key: T -> int, k: int) {
    forall x :: x in s ==> weight(x) == 1.0 && key(x) == k
  }

  function Singles<T>(s: seq<T>): seq<Block<T>> {
    if s == [] then [] else [Block([s[0]], 1.0)] + Singles(s[1..])
  }

  lemma {:induction false} AlikeSorted<T>(s: seq<T>, weight: T -> real, key: T -> int, k: int)
    requires Alike(s, weight, key, k)
    ensures Sorted(s, key, weight) == s && Total(s, weight) == |s| as real && |Singles(s)| == |s|
  {
    if s != [] {
      AlikeSorted(s[1..], weight, key, k);
      assert s == [s[0]] + s[1..];
    }
  }

  lemma {:induction false} AlikeSplit<T>(s: seq<T>, m: real, weight: T -> real, key: T -> int, k: int, x: T)
    requires Alike(s, weight, key, k) && 0.0 < m < 2.0
    ensures SplitFrom(s, m, weight, key, Block([x], 1.0), k) == Split([Block([x], 1.0)] + Singles(s), false)
    decreases |s|
  {
    if s != [] {
      AlikeSplit(s[1..], m, weight, key, k, s[0]);
    }
  }

  /** The bound is reached for every hint: 2 * hint - 1 items of weight 1 and one key make
      as many blocks (five for the hint 3 of the example in the documentation). */
  lemma {:induction false} BlockCountTight<T>(
    s: seq<T>, hint: int, weight: T -> real, key: T -> int, nokey: bool, k: int)
    requires hint > 1 && |s| == 2 * hint - 1 && Alike(s, weight, key, k)
    ensures var r := SplitInBlocks(s, hint, weight, key, nokey, k);
      r.Some? && |r.value| == 2 * hint - 2 + |Keys(s, key)|
  {
    hide Keys, SplitFrom;
    AlikeSorted(s, weight, key, k);
    var m := |s| as real / hint as real;
    AlmostTwo(|s|, hint);
    AlikeBlocks(s, m, weight, key, k);
    SingleKey(s, weight, key, k);
  }

  lemma {:induction false} AlmostTwo(n: nat, hint: int)
    requires hint > 1 && n == 2 * hint - 1
    ensures 1.0 < n as real / hint as real < 2.0
  {
    DivideBetween(1.0, n as real, 2.0, hint as real);
  }

  lemma {:induction false} AlikeBlocks<T>(s: seq<T>, m: real, weight: T -> real, key: T -> int, k: int)
    requires s != [] && Alike(s, weight, key, k) && 1.0 < m < 2.0
    ensures SplitBlocks(s, m, weight, key, k) == Split(Singles(s), false)
  {
    assert s[0] in s && [] + [s[0]] == [s[0]];
    AlikeSplit(s[1..], m, weight, key, k, s[0]);
  }

  lemma {:induction false} SingleKey<T>(s: seq<T>, weight: T -> real, key: T -> int, k: int)
    requires s != [] && Alike(s, weight, key, k)
    ensures Keys(s, key) == {k}
  {
    assert s[0] in s;
  }

  // ----- positive items are all kept

  lemma {:induction false} FlatIsConcat<T>(blocks: seq<Block<T>>)
    ensures Concat(ItemsOf(blocks)) == Flat(blocks)
  {
    if blocks == [] {
      assert ItemsOf(blocks) == [];
    } else {
      FlatIsConcat(blocks[1..]);
      assert ItemsOf(blocks) == [blocks[0].items] + ItemsOf(blocks[1..]);
    }
  }

  lemma {:induction false} PositivePartition<T, K>(
    items: seq<T>, maxWeight: real, weight: T -> real, key: T -> K, unspecified: K)
    requires maxWeight > 0.0 && forall x :: x in items ==> weight(x) > 0.0
    ensures var r := SplitBlocks(items, maxWeight, weight, key, unspecified);
      && !r.failed
      && Concat(ItemsOf(r.blocks)) == items
      && forall i :: 0 <= i < |r.blocks| ==> r.blocks[i].items != []
  {
    hide SplitBlocks, Thinned;
    assert forall i :: 0 <= i < |items| ==> items[i] in items;
    SplitterFailsIff(items, maxWeight, weight, key, unspecified);
    SplitterPartitions(items, maxWeight, weight, key, unspecified);
    var blocks := SplitBlocks(items, maxWeight, weight, key, unspecified).blocks;
    ThinnedFacts(Flat(blocks), items, weight);
    FlatIsConcat(blocks);
  }

  lemma {:induction false} GroupsFacts<T>(s: seq<T>, key: T -> int)
    ensures Concat(Groups(s, key)) == s
    ensures forall i :: 0 <= i < |Groups(s, key)| ==> Groups(s, key)[i] != []
  {
    if s != [] {
      GroupsFacts(s[1..], key);
      var r := Groups(s[1..], key);
      assert s == [s[0]] + s[1..];
      if |s| > 1 && key(s[0]) == key(s[1]) && r != [] {
        assert ([[s[0]] + r[0]] + r[1..])[1..] == r[1..];
      } else {
        assert ([[s[0]]] + r)[1..] == r;
      }
    }
  }

  /** Every group has one key, that of its first item. */
  ghost predicate OneKeyEach<T>(groups: seq<seq<T>>, key: T -> int) {
    forall i, j :: 0 <= i < |groups| && 0 <= j < |groups[i]| ==> key(groups[i][j]) == key(groups[i][0])
  }

  ghost predicate NoneEmpty<T>(groups: seq<seq<T>>) {
    forall i :: 0 <= i < |groups| ==> groups[i] != []
  }

  ghost predicate KeysIncrease<T>(groups: seq<seq<T>>, key: T -> int)
    requires NoneEmpty(groups)
  {
    forall i, j :: 0 <= i < j < |groups| ==> key(groups[i][0]) < key(groups[j][0])
  }

  lemma {:induction false} GroupsByKey<T>(s: seq<T>, key: T -> int)
    ensures NoneEmpty(Groups(s, key)) && OneKeyEach(Groups(s, key), key)
    ensures s != [] ==> Groups(s, key) != [] && Groups(s, key)[0][0] == s[0]
    ensures KeySorted(s, key) ==> KeysIncrease(Groups(s, key), key)
  {
    if s != [] {
      GroupsByKey(s[1..], key);
      var g, r := Groups(s, key), Groups(s[1..], key);
      hide Groups;
      assert forall i :: 0 <= i < |s[1..]| ==> s[1..][i] == s[i + 1];
      if |s| > 1 && key(s[0]) == key(s[1]) {
        assert g == [[s[0]] + r[0]] + r[1..];
        JoinedGroup(s[0], r, key);
      } else {
        assert g == [[s[0]]] + r;
      }
    }
  }

  lemma {:induction false} JoinedGroup<T>(x: T, r: seq<seq<T>>, key: T -> int)
    requires NoneEmpty(r) && OneKeyEach(r, key) && r != [] && key(x) == key(r[0][0])
    ensures var g := [[x] + r[0]] + r[1..];
      NoneEmpty(g) && OneKeyEach(g, key) && (KeysIncrease(r, key) ==> KeysIncrease(g, key))
  {
    var g := [[x] + r[0]] + r[1..];
    assert forall i :: 1 <= i < |g| ==> g[i] == r[i];
    assert forall j :: 1 <= j < |g[0]| ==> g[0][j] == r[0][j - 1];
  }

  lemma {:induction false} TiesAppend<T>(a: seq<T>, b: seq<T>, k: int, w: real, key: T -> int, weight: T -> real)
    ensures Ties(a + b, k, w, key, weight) == Ties(a, k, w, key, weight) + Ties(b, k, w, key, weight)
  {
    if a == [] {
      assert a + b == b;
    } else {
      assert (a + b)[1..] == a[1..] + b;
      TiesAppend(a[1..], b, k, w, key, weight);
    }
  }

  lemma {:induction false} TiesOfKey<T>(s: seq<T>, k: int, key: T -> int, weight: T -> real)
    requires forall i :: 0 <= i < |s| ==> weight(s[i]) == 0.0
    ensures (forall i :: 0 <= i < |s| ==> key(s[i]) == k) ==> Ties(s, k, 0.0, key, weight) == s
    ensures (forall i :: 0 <= i < |s| ==> key(s[i]) != k) ==> Ties(s, k, 0.0, key, weight) == []
  {
    if s != [] {
      assert forall i :: 0 <= i < |s[1..]| ==> s[1..][i] == s[i + 1];
      TiesOfKey(s[1..], k, key, weight);
    }
  }

  lemma {:induction false} GroupIsTies<T>(groups: seq<seq<T>>, i: nat, key: T -> int, weight: T -> real)
    requires i < |groups| && NoneEmpty(groups) && OneKeyEach(groups, key) && KeysIncrease(groups, key)
    requires forall x :: weight(x) == 0.0
    ensures Ties(Concat(groups), key(groups[i][0]), 0.0, key, weight) == groups[i]
  {
    hide Ties;
    var k, rest := key(groups[i][0]), groups[1..];
    TiesAppend(groups[0], Concat(rest), k, 0.0, key, weight);
    TiesOfKey(groups[0], k, key, weight);
    assert forall n :: 0 <= n < |rest| ==> rest[n] == groups[n + 1];
    if i == 0 {
      OtherKeys(rest, k, key, weight);
    } else {
      GroupIsTies(rest, i - 1, key, weight);
    }
  }

  lemma {:induction false} OtherKeys<T>(groups: seq<seq<T>>, k: int, key: T -> int, weight: T -> real)
    requires NoneEmpty(groups) && OneKeyEach(groups, key)
    requires forall n :: 0 <= n < |groups| ==> key(groups[n][0]) != k
    requires forall x :: weight(x) == 0.0
    ensures Ties(Concat(groups), k, 0.0, key, weight) == []
  {
    if groups == [] {
      assert Concat(groups) == [];
    } else {
      hide Ties;
      var rest := groups[1..];
      assert forall n :: 0 <= n < |rest| ==> rest[n] == groups[n + 1];
      OtherKeys(rest, k, key, weight);
      TiesAppend(groups[0], Concat(rest), k, 0.0, key, weight);
      TiesOfKey(groups[0], k, key, weight);
    }
  }

  /** The items with a key, in their order. */
  function OfKey<T>(s: seq<T>, k: int, key: T -> int): seq<T> {
    Ties(s, k, 0.0, key, (x: T) => 0.0)
  }

  /** Without a key there is no split. Splitting by key alone: one group for each key, by increasing
      keys, with all the items of that key in the order they had. */
  lemma {:induction false} SplitByKey<T>(
    s: seq<T>, weight: T -> real, key: T -> int, hint: int, unspecified: int)
    requires hint == 0 || hint == 1
    ensures SplitInBlocks(s, hint, weight, key, true, unspecified) == Some([s])
    ensures var r := SplitInBlocks(s, hint, weight, key, false, unspecified);
      && r.Some? && NoneEmpty(r.value) && OneKeyEach(r.value, key) && KeysIncrease(r.value, key)
      && (forall i :: 0 <= i < |r.value| ==> r.value[i] == OfKey(s, key(r.value[i][0]), key))
      && multiset(Concat(r.value)) == multiset(s)
  {
    hide Groups, Sorted, Ties, Concat;
    var zero := (x: T) => 0.0;
    var sorted := Sorted(s, key, zero);
    SortedFacts(s, key, zero);
    GroupsFacts(sorted, key);
    GroupsByKey(sorted, key);
    var groups := Groups(sorted, key);
    assert SplitInBlocks(s, hint, weight, key, false, unspecified) == Some(Groups(Sorted(s, key, x => 0.0), key));
    forall i | 0 <= i < |groups| ensures groups[i] == OfKey(s, key(groups[i][0]), key) {
      GroupIsTies(groups, i, key, zero);
    }
  }

  lemma {:induction false} TotalPositive<T>(s: seq<T>, weight: T -> real)
    requires s != [] && forall x :: x in s ==> weight(x) > 0.0
    ensures Total(s, weight) > 0.0
  {
    if |s| > 1 {
      TotalPositive(s[1..], weight);
    }
  }

  lemma {:induction false} PositiveElements<T>(a: seq<T>, b: seq<T>, weight: T -> real)
    requires multiset(a) == multiset(b) && forall x :: x in b ==> weight(x) > 0.0
    ensures |a| == |b| && forall x :: x in a ==> weight(x) > 0.0
  {
    SameElements(a, b);
  }

  lemma {:induction false} PositiveInBlocks<T>(
    s: seq<T>, hint: int, weight: T -> real, key: T -> int, nokey: bool, unspecified: int)
    requires hint > 0 && s != [] && forall x :: x in s ==> weight(x) > 0.0
    ensures var r := SplitInBlocks(s, hint, weight, key, nokey, unspecified);
      && r.Some?
      && multiset(Concat(r.value)) == multiset(s)
      && forall i :: 0 <= i < |r.value| ==> r.value[i] != []
  {
    if hint == 1 && nokey {
      assert [s][1..] == [] && Concat([s]) == s;
    } else if hint == 1 {
      SortedKeys(s, key, x => 0.0);
      GroupsFacts(Sorted(s, key, x => 0.0), key);
    } else {
      var items := Sorted(s, key, weight);
      SortedKeys(s, key, weight);
      PositiveElements(items, s, weight);
      TotalPositive(items, weight);
      QuotientSign(Total(items, weight), hint);
      PositivePartition(items, Total(items, weight) / hint as real, weight, key, unspecified);
    }
  }

  // ----- split_in_slices and gen_slices

  datatype Slice = Slice(start: nat, stop: nat)

  /** The slices follow each other from lo to hi. */
  ghost predicate Tiles(slices: seq<Slice>, lo: nat, hi: nat) {
    && |slices| > 0 && slices[0].start == lo && slices[|slices| - 1].stop == hi
    && forall i :: 0 <= i < |slices| - 1 ==> slices[i].stop == slices[i + 1].start
  }

  /** Non-empty slices tiling [0, number), all of the same size but the last, and at
      most as many as asked for. */
  method SplitInSlices(number: nat, numSlices: nat) returns (slices: seq<Slice>)
    requires number > 0 && numSlices > 0
    ensures Tiles(slices, 0, number)
    ensures |slices| <= numSlices
    ensures forall i :: 0 <= i < |slices| ==> slices[i].start < slices[i].stop
    ensures forall i :: 0 <= i < |slices| - 1 ==>
      slices[i].stop - slices[i].start == (number + numSlices - 1) / numSlices
  {
    var blocksize := (number + numSlices - 1) / numSlices;
    CeilFacts(number, numSlices);
    slices := [];
    var start := 0;
    while true
      invariant start == |slices| * blocksize < number
      invariant slices == [] || Tiles(slices, 0, start)
      invariant forall i :: 0 <= i < |slices| ==>
        slices[i].start < slices[i].stop && slices[i].stop - slices[i].start == blocksize
      decreases number - start
    {
      var stop := if start + blocksize < number then start + blocksize else number;
      FewSlices(|slices|, blocksize, number, numSlices);
      slices := slices + [Slice(start, stop)];
      if stop == number {
        break;
      }
      start := start + blocksize;
      assert |slices| * blocksize == (|slices| - 1) * blocksize + blocksize;
    }
  }

  lemma {:induction false} CeilFacts(number: nat, n: nat)
    requires number > 0 && n > 0
    ensures (number + n - 1) / n > 0
    ensures (number + n - 1) / n * n >= number
  {
    var b := (number + n - 1) / n;
    assert b * n + (number + n - 1) % n == number + n - 1;
    assert b == 0 ==> b * n == 0;
  }

  lemma {:induction false} FewSlices(k: nat, b: nat, number: nat, n: nat)
    requires k * b < number <= b * n
    ensures k < n
  {
    assert k * b == n * b + (k - n) * b;
    assert k >= n ==> (k - n) * b >= 0;
  }

  /** Slices of length blocksize, the last one possibly shorter, tiling [start, stop): a single empty
      one when start is stop, and non-empty ones otherwise. */
  method GenSlices(start: nat, stop: nat, blocksize: nat) returns (slices: seq<Slice>)
    requires start <= stop && blocksize > 0
    ensures Tiles(slices, start, stop)
    ensures forall i :: 0 <= i < |slices| ==> slices[i].stop - slices[i].start <= blocksize
    ensures forall i :: 0 <= i < |slices| ==> (slices[i].start < slices[i].stop <==> start < stop)
    ensures forall i :: 0 <= i < |slices| - 1 ==> slices[i].stop - slices[i].start == blocksize
    ensures start == stop ==> |slices| == 1
  {
    slices := [];
    var s := start;
    while true
      invariant start <= s && (slices != [] ==> s < stop && Tiles(slices, start, s)) && (slices == [] ==> s == start)
      invariant forall i :: 0 <= i < |slices| ==> slices[i].start < slices[i].stop == slices[i].start + blocksize
      decreases stop - s
    {
      slices := slices + [Slice(s, if s + blocksize < stop then s + blocksize else stop)];
      s := s + blocksize;
      if s >= stop {
        break;
      }
    }
  }
}

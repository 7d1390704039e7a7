# Verification of the OpenQuake engine's map-reduce core

The engine distributes earthquake calculations over many tasks, collects what they
return and aggregates it in several indexes and tables. This project models that machinery in
Dafny and proves what its callers rely on. The physics is not modelled: task functions, risk
functions, validators, weights and keys are parameters.

The modules follow the source:

- `Tasks`, `Protocol`, `Starmap`: workers that send outputs, subtasks and an end marker, and the
  master loop with its queue. A run is any interleaving of one FIFO channel per task. `Protocol`
  is the state machine, `Starmap` the class with the mutable fields, refining it step by step.
- `Blocks`, `SplitTask`, `Folds`, `AccumDict`, `ApplySplit`: the partitioner, the splitting of a
  task in slices and subtasks, and the reduction; `ApplySplit` composes them with the protocol
  into "the parallel reduce equals the function on the whole input".
- `Kernels`, `CountingSort`: run detection, slicing and the in-place counting sort on arrays.
- `Nodes`, `XmlParser`: the compiler from trees to straight-line code over `e1, e2, ...`, its
  execution on a heap, and the stack parser with its stop tag.
- `Aggregate`, `Losses`, `EventBasedRisk`, `EventTables`, `EventSlices`: one stream of losses
  aggregated by asset and realization and by packed event and key, task by task and slice by slice.
- `Reaggregate`, `AggKeys`: the event losses reaggregated by fewer tags, and the keys of the result.
- `RateStore`, `Getters`, `FastMean`: the rate columns with their slice index, the getters that
  read them back, and the two ways of computing a mean curve.
- `RuptureMerge`, `TileCollect`: merging files with id offsets, and interleaving tiles.
- `Basics`, `Reals`, `ModSlices`: shared definitions and arithmetic.

Where a method changes state, its contract equates the new state with a function of the old one,
and the lemmas are about that function. Floats are reals and ids are unbounded naturals; the 32
bits of the packed keys and the 24 bits of the realization numbers are explicit.

## What the code does not do

Apart from the order of the queue, these are results: each is proved together with the exact
condition under which the expected property holds, and with an input for which it fails.

- `apply_split` with a maximum weight raises before any task is submitted: its arguments are then a
  generator, and the constructor of Starmap looks at the first of them
  (`openquake/baselib/parallel.py:793-794`). On positive items and for an additive function it gives
  the function on the whole input if and only if there is no maximum weight
  (`ApplySplit.ApplySplit`, `ApplySplit.LazyWitness`). It is also declared without `@classmethod`,
  so that it can only be called on an instance. `apply` with a plain task accepts both
  splitters (`ApplySplit.Apply`), and `submit_split` takes its arguments one by one
  (`ApplySplit.SubmitSplit`).
- `safely_call` sends exactly one end marker, as its last message, if and only if the task does not
  produce a value that cannot be sent back (an empty tuple, an object that cannot be pickled), does
  not raise an exception that cannot be pickled or is not an `Exception`, does not raise before the
  trapped call (when its arguments cannot be unpickled, or a generator function is called with the
  wrong ones), and is not a plain function that raises StopIteration: the first three kill the
  worker before the marker, the last sends two markers (`Tasks.EndsOnceIff`,
  `Tasks.EndsOnceWitness`). For a split task and its subtasks the condition is in
  `SplitTask.SplitBehavesIff`.
- The comment at `openquake/baselib/parallel.py:932` says LIFO; the code takes the first of the
  queue. The model follows the code. The conservation results do not depend on it.
- The loop looks only at the running tasks. It drains the queue if and only if at least one task is
  submitted before it or there is nothing to do (`Protocol.QueueDrainedIff`,
  `Protocol.QueueWitness`). The failing side needs `CT` to be 0, which the engine never sets: without
  workers it gives up before (`openquake/engine/engine.py:83-89`).
- With expected outputs, the sanity check on the percentage never stops the loop if and only if the
  tasks and their subtasks produce fewer than 101% of the expected outputs; otherwise every run stops
  before its end (`Protocol.PercentIff`, `Protocol.PercentWitness`, `Starmap.Starmap.Loop`).
- `split_task` with `outs_per_task <= 0` loses every element without an error
  (`SplitTask.SlicesCoverIff`, `SplitTask.LostElementsWitness`).
- `block_splitter` says that items of weight zero are ignored. One is kept if and only if it opens a
  block: its key is new, or the item before it is heavier than the maximum weight
  (`Blocks.KeptIff`, `Blocks.ZeroKeptWitness`). They are all ignored if and only if none of
  them opens a block (`Blocks.ZeroIgnoredIff`).
- `split_slices` respects its length bound if and only if the size is positive
  (`Kernels.LengthBoundIff`, `Kernels.LengthWitness`).
- `node_to_elem` fails if and only if some node has an attribute called `attrib`, a parameter
  of the element constructors, since attributes are passed as keywords (`Nodes.NodeToElem`,
  `Nodes.CompileFails`, `Nodes.ReservedWitness`).
- The parser appends children without the check of the node constructor, so documents with mixed
  content, and only those, give nodes that the rest of the module refuses or truncates
  (`XmlParser.ParsedNodesAreSound`, `XmlParser.MixedWitness`, `Nodes.CopyIff`, `Nodes.RoundTripIff`).
- `average_losses` puts the losses of a single realization in column 0 whatever its number
  (`EventBasedRisk.ColumnsAgreeIff`, `EventBasedRisk.ColumnWitness`).
- `reagg_idxs` is onto if and only if no dropped tag is empty, or there is nothing to reach
  (`Reaggregate.OntoIff`, `Reaggregate.OntoWitness`).
- `reagg_idxs` numbers the chosen tags in the order of the parent calculation, while `agg_keys` lists
  them in the order of `aggregate_by` (`openquake/calculators/post_risk.py:519-527`). Every new index
  is the position of its key if and only if there is nothing to index or the chosen tags with several
  values are chosen once each and in the order of the parent (`AggKeys.OrderIff`,
  `AggKeys.OrderWitness`). Otherwise some cell goes under the key of another.
- The getters return every stored rate if and only if no cell was stored with two different values:
  the last one wins (`Getters.AllReadBackIff`, `Getters.OverwrittenWitness`).
- The fast mean is not normalised and the slow one is: they agree if and only if the weights sum to
  one, or the mean rate is zero and the weights do not sum to zero (`FastMean.FastIsSlowIff`,
  `FastMean.MeanWitness`).
- The merge of ruptures leaves the first `e0` alone, so the starts are prefix sums if and only if
  it is zero; it moves geometries by the number of ruptures, so that a rupture finds its own (among
  distinct ones) if and only if the files before had as many geometries as ruptures
  (`RuptureMerge.StartsIff`, `RuptureMerge.StartsWitness`, `RuptureMerge.GeometryKeptIff`,
  `RuptureMerge.GeometryWitness`). A file without geometries makes it raise, whatever the others hold,
  since `save_vlen` looks at the first of them (`openquake/baselib/hdf5.py:458`,
  `RuptureMerge.ImportRuptures`).
- `collect` puts each row in its place if and only if the tiles have the sizes of a modular tiling
  (`TileCollect.RowsIff`, `TileCollect.SizesWitness`).

## Model

| member | source | states |
|---|---|---|
| `Tasks.SafelyCall` | openquake/baselib/parallel.py:497-547 | the worker loop sends exactly the messages of the task: one for each yield in its order, the value, the subtask or the exception, then the end; for generators that raise or die, plain functions, values that cannot be sent and exceptions that cannot be trapped |
| `Tasks.RunGenerator` | openquake/baselib/parallel.py:529-538 | the loop on a generator sends its messages one by one |
| `Tasks.MessagesAreSent` | openquake/baselib/parallel.py:529-547 | what is on the channel of a task, written out position by position and case by case |
| `Tasks.OutsAreYielded` | openquake/baselib/parallel.py:529-547 | the outputs on the channel of a well-behaved task are the values of its own yields, subtasks apart, in their order |
| `Tasks.EndsOnceIff` | openquake/baselib/parallel.py:422-450 | a task sends one end marker, last, exactly when it is well behaved |
| `Tasks.EndsOnceWitness` | openquake/baselib/parallel.py:382-449 | tasks that send no end marker, or two |
| `Tasks.SubsWellBehaved` | openquake/baselib/parallel.py:529-538 | the subtasks sent by a well-behaved tree of tasks are well behaved |
| `Tasks.SizeOfMessages` | openquake/baselib/parallel.py:529-547 | handling all the messages of a task is less work than the task: the reason why spawning terminates |
| `Protocol.StepSafe` | openquake/baselib/parallel.py:976-1020 | no step of the master fails (the removal from the running tasks always finds its number) and each keeps the invariant: numbering, no running task twice, finished and running tasks partition the numbers, order and conservation |
| `Protocol.RunKeeps` | openquake/baselib/parallel.py:976-1020 | every run, with any interleaving of the channels and any foreign results, keeps the invariant |
| `Protocol.StartInv` | openquake/baselib/parallel.py:961-965 | the invariant holds when the loop starts, the clause "a queued task implies a running one" included |
| `Protocol.NoWorkLostOrDuplicated` | openquake/baselib/parallel.py:954-1028 | at exit the queue is empty, every task and spawned subtask was submitted once and ended once, every output was yielded once, and those of a task are the values of its own yields in their order |
| `Protocol.OutputsFromAt` | openquake/baselib/parallel.py:976-1019 | where each yielded result is among those of its task |
| `Protocol.QueueDrainedIff` | openquake/baselib/parallel.py:961-976 | the queue is empty at exit exactly when some task was submitted before the loop or there was none |
| `Protocol.QueueWitness` | openquake/baselib/parallel.py:961-976 | with no first submission a queued task is never run |
| `Protocol.SomethingArrives` | openquake/baselib/parallel.py:976-977 | a channel is non-empty exactly while its task runs, so the blocking read returns |
| `Protocol.StepWork` | openquake/baselib/parallel.py:976-1019 | every result consumed makes the remaining work strictly smaller |
| `Protocol.RunsAreBounded` | openquake/baselib/parallel.py:976-1019 | a run consumes at most as many results as the given tasks allow, subtasks included: the loop terminates |
| `Protocol.PercentIff` | openquake/baselib/parallel.py:824-841 | over all the runs of some tasks, the asserted percentage of the expected outputs is never above 100 exactly when the tasks and their subtasks produce fewer than 101% of them |
| `Protocol.PercentAt` | openquake/baselib/parallel.py:824-841 | in any reachable state, when the percentage is at most 100; without expected outputs always, and it ends at 100 |
| `Protocol.PercentWitness` | openquake/baselib/parallel.py:831-840 | a generator of two outputs where one is expected, and its run up to a percentage of 200 |
| `Starmap.Starmap.constructor` | openquake/baselib/parallel.py:781-822 | the initial state of the master |
| `Starmap.Starmap.Submit` | openquake/baselib/parallel.py:852-884 | the new state of the master is the one of the transition |
| `Starmap.Starmap.SubmitMany` | openquake/baselib/parallel.py:929-935 | takes tasks from the front of the queue, at most as many as asked for |
| `Starmap.Starmap.SubmitAll` | openquake/baselib/parallel.py:895-911 | lazy arguments are submitted at once, the others queued |
| `Starmap.Starmap.LogPercent` | openquake/baselib/parallel.py:824-841 | the percentage, and when its sanity check fails |
| `Starmap.Starmap.Receive` | openquake/baselib/parallel.py:979-1019 | one iteration refines one transition of the protocol |
| `Starmap.Starmap.Loop` | openquake/baselib/parallel.py:954-1028 | the loop is a run of the protocol; it gets to its end exactly when no outputs are expected or the tasks produce fewer than 101% of them, and then it leaves nothing queued or running and has yielded each output of each task and subtask exactly once, those of a task being the values of its own yields in their order |
| `Folds.Reduce` | openquake/baselib/parallel.py:605-610 | any function accumulates the results in order of arrival from any start; it raises exactly when some result is an exception |
| `Folds.FoldLeftSnoc` | openquake/baselib/parallel.py:605-610 | each result is given to the function together with what the ones before have made; an exception ends it |
| `Folds.LeftIsFold` | openquake/baselib/parallel.py:605-610 | for a commutative monoid accumulating is the sequential fold |
| `Folds.FoldPermutation` | openquake/baselib/parallel.py:605-625 | with a commutative monoid the order of arrival is irrelevant |
| `AccumDict.AccumDict.IAdd` | openquake/baselib/general.py:775-788 | `+=` with a dictionary adds where both have the key and copies where only the other has it; with anything else it adds to every value |
| `AccumDict.PlusEqualsAt` | openquake/baselib/general.py:775-788 | what `+=` does to each key, with a dictionary and with anything else |
| `AccumDict.MergeIsMonoid` | openquake/baselib/general.py:775-788 | accumulating dictionaries form a commutative monoid when their values do up to the unit |
| `AccumDict.ReduceDefault` | openquake/baselib/parallel.py:605-610 | the default reduce accumulates any results, dictionaries or not, with `+=` from the empty dictionary |
| `AccumDict.DictionariesFold` | openquake/baselib/parallel.py:605-610 | for dictionaries whose values add up in any order the default reduce does not depend on the order of arrival |
| `Blocks.WeightedSequence.Insert` | openquake/baselib/general.py:199-205 | inserts the item and adds its weight |
| `Blocks.WeightedSequence.Append` | openquake/baselib/general.py:199-205 | the item comes last and the weight grows by its weight |
| `Blocks.BlockSplitter` | openquake/baselib/general.py:247-292 | the loop yields exactly the blocks of the specification, on the items sorted first if so asked, and fails when it does |
| `Blocks.DescendingFacts` | openquake/baselib/general.py:276 | the optional sorting permutes the items and puts the heaviest first |
| `Blocks.SplitterPartitions` | openquake/baselib/general.py:247-292 | the blocks hold the input in order with only zero weights missing, each has one key and its exact weight, none exceeds the maximum unless it is a single item, and the splitting is greedy |
| `Blocks.KeptIff` | openquake/baselib/general.py:276-292 | exactly which items are in the blocks: those with a weight and, of the others, those that open a block by a new key or after an item above the maximum weight |
| `Blocks.ZeroIgnoredIff` | openquake/baselib/general.py:255-256 | the documented property, that items of weight zero are ignored, holds exactly when none of them opens a block |
| `Blocks.ZeroKeptWitness` | openquake/baselib/general.py:276-292 | items of weight zero that are kept, for both reasons |
| `Blocks.ThinnedFacts` | openquake/baselib/general.py:281-290 | dropping the zero weights keeps the total weight and every item of non-zero weight |
| `Blocks.SplitterFailsIff` | openquake/baselib/general.py:273-282 | exactly when the splitter raises |
| `Blocks.PositivePartition` | openquake/baselib/general.py:247-292 | with positive weights the blocks are non-empty and concatenate to the input |
| `Blocks.SortedFacts` | openquake/baselib/general.py:371 | the sorting by key and weight permutes the items, puts them by key and inside a key by weight, and is stable |
| `Blocks.GroupsFacts` | openquake/baselib/general.py:366-370 | grouping by key alone loses nothing and makes no empty group |
| `Blocks.SplitByKey` | openquake/baselib/general.py:364-370 | without a key nothing is split; by key alone there is one group for each key, by increasing keys, with all its items in the order they had |
| `Blocks.SplitInBlocksFacts` | openquake/baselib/general.py:357-375 | for hint > 1 the result is the good partition with maximum total/hint, and it raises exactly on a total weight of zero |
| `Blocks.PairsWeigh` | openquake/baselib/general.py:281-292 | adjacent blocks with the same key weigh together more than the maximum, so the pairs are bounded by the total weight |
| `Blocks.BlockCountBound` | openquake/baselib/general.py:357-375 | at most 2 * hint - 2 + number of keys blocks |
| `Blocks.BlockCountTight` | openquake/baselib/general.py:344-375 | the bound is reached for every hint |
| `Blocks.PositiveInBlocks` | openquake/baselib/general.py:357-375 | for every hint > 0, positive items are permuted into non-empty blocks |
| `Blocks.SplitInSlices` | openquake/baselib/general.py:295-321 | at most the asked number of non-empty slices tile the range, all but the last of the same size |
| `Blocks.GenSlices` | openquake/baselib/general.py:324-338 | slices of the block size, the last possibly shorter, tile the range; an empty range gives one empty slice |
| `SplitTask.SplitTask` | openquake/baselib/parallel.py:1054-1082 | the generator yields what its specification says, wherever it overruns and however the function ends |
| `SplitTask.SlicesAre` | openquake/baselib/parallel.py:1062-1068 | there are as many slices as asked for, at most one for each element; element j is element j / m of slice j % m, and there is nothing else |
| `SplitTask.SplitYieldsAre` | openquake/baselib/parallel.py:1071-1083 | when slice n is the first to overrun or to raise: the results on the slices up to it, in order, and then one subtask for each slice left, which applies the function to it; or the exception |
| `SplitTask.SlicesCoverIff` | openquake/baselib/parallel.py:1062-1068 | the slices are non-empty, and together a permutation of the elements exactly when there is some slice to make |
| `SplitTask.LostElementsWitness` | openquake/baselib/parallel.py:1063-1071 | a split task that does nothing with its element |
| `SplitTask.SplitBehavesIff` | openquake/baselib/parallel.py:1071-1082 | exactly for which functions a split task and its subtasks end once each, wherever it overruns |
| `SplitTask.YieldsFromOutputs` | openquake/baselib/parallel.py:1071-1082 | the outputs of a split task and of its subtasks are what the function gives on each slice, up to the first exception |
| `SplitTask.OutputsFromFold` | openquake/baselib/parallel.py:1071-1082 | the reduced outputs do not depend on where the task overran |
| `ModSlices.SlicesPermute` | openquake/baselib/parallel.py:1066-1068 | the modular slices together are a permutation of the elements |
| `ModSlices.ElementAt` | openquake/baselib/parallel.py:1067-1068 | element j is element j / m of slice j % m |
| `ApplySplit.TaskTotal` | openquake/baselib/parallel.py:1054-1082 | a split task with its subtasks reduces to the fold of the function over its slices, wherever it overruns |
| `ApplySplit.SplitTotalIs` | openquake/baselib/parallel.py:1062-1075 | which is the function on its elements, or nothing without outputs per task |
| `ApplySplit.BlocksPermute` | openquake/baselib/parallel.py:758-766 | the arguments of the tasks permute the positive items, whichever splitter makes them; only a negative maximum weight raises |
| `ApplySplit.ArgBlocksAre` | openquake/baselib/parallel.py:717-727 | whatever the weights, where the arguments are cut: good and greedy blocks at the maximum weight, or at the total over the hint of the sorted items, and then at most 2 * hint - 2 + number of keys |
| `ApplySplit.RunTotal` | openquake/baselib/parallel.py:920-924 | in every run the reduced results of split tasks are the fold of what each block stands for |
| `ApplySplit.ParallelEqualsSequential` | openquake/baselib/parallel.py:762-779 | for positive weights and an additive function, every run of the protocol on the split tasks reduces to the function on the whole input |
| `ApplySplit.PlainParallelEqualsSequential` | openquake/baselib/parallel.py:737-767 | the same for plain tasks on the blocks of either splitter |
| `ApplySplit.ParallelDictionaries` | openquake/baselib/parallel.py:605-610 | the same for functions that give dictionaries, with the default reduce |
| `ApplySplit.SubmitAndReduce` | openquake/baselib/parallel.py:895-924 | submitting tasks, eagerly or lazily, looping and reducing gives the fold of what they stand for, and submits exactly these tasks and their subtasks |
| `ApplySplit.Apply` | openquake/baselib/parallel.py:737-767 | `apply` then reduce: when it raises, what it gives, that it submits one task for each block, and that it gives the function on the whole input exactly without a negative maximum weight |
| `ApplySplit.ApplySplit` | openquake/baselib/parallel.py:769-794 | `apply_split` then reduce: when it raises, what it gives, that it submits one split task for each block, and that it gives the function on the whole input exactly without a maximum weight |
| `ApplySplit.LazyWitness` | openquake/baselib/parallel.py:759-761 | an item that the lazy splitter accepts and for which the constructor raises |
| `ApplySplit.SubmitSplit` | openquake/baselib/parallel.py:886-893 | `submit_split` on some batches then `reduce` gives the function on all their elements |
| `Kernels.IdxStartStop` | openquake/baselib/performance.py:470-481 | the runs tile the array, each is constant, and adjacent ones differ |
| `Kernels.RunsUnique` | openquake/baselib/performance.py:470-481 | there is only one such list of runs |
| `Kernels.SplitSlices` | openquake/baselib/performance.py:485-499 | the slices tile the array, cut only where the value changes, as soon as the size is reached |
| `Kernels.SplitSlicesLengths` | openquake/baselib/performance.py:485-499 | lower bound for the slices but the last (one less for the first) and upper bound for all of them |
| `Kernels.LengthBoundIff` | openquake/baselib/performance.py:485-499 | size - 1 + longest run bounds every slice exactly when size > 0 |
| `Kernels.LengthWitness` | openquake/baselib/performance.py:485-499 | an array of one element, longer than the bound for size 0 |
| `CountingSort.FillBuckets` | openquake/baselib/performance.py:526-534 | in place, each bucket holds its values backwards and the counters end at the bucket starts |
| `CountingSort.FillNext` | openquake/baselib/performance.py:531-533 | one more value goes to the free position of its bucket and disturbs no other |
| `CountingSort.SplitArray` | openquake/baselib/performance.py:538-556 | group k is the subsequence of the values with index k, in the original order |
| `CountingSort.SelectAt` | openquake/baselib/performance.py:538-556 | a value is in the group of its index, after the values with that index before it |
| `CountingSort.GroupsPermute` | openquake/baselib/performance.py:538-556 | the groups together are a permutation of the array |
| `CountingSort.OutPermutes` | openquake/baselib/performance.py:526-534 | the filled array is a permutation of its input |
| `CountingSort.SplitOrdered` | openquake/baselib/performance.py:550-551 | without counts, the groups are the slices of the maximal runs |
| `CountingSort.OrderedGroups` | openquake/baselib/performance.py:550-556 | for ordered indices both ways of splitting give the same groups |
| `Nodes.Code.GenerateElem` | openquake/baselib/node.py:726-738 | the recursive generator appends exactly the code of the node |
| `Nodes.CompileBuilds` | openquake/baselib/node.py:726-744 | executing the code of a node at a level hangs its tree under the variable of the level above and leaves the variables below and the rest of the heap alone |
| `Nodes.CompileFails` | openquake/baselib/node.py:729-734 | a reserved attribute anywhere makes the code raise |
| `Nodes.NodeToElem` | openquake/baselib/node.py:722-745 | for every finite tree the code builds at e1 the same tags, attributes, leaf texts and children in their order, each element in a cell of its own and no other cell, or raises exactly when some node has an attribute called `attrib` |
| `Nodes.ReservedWitness` | openquake/baselib/node.py:729-734 | a tree of one node on which the code raises |
| `Nodes.VariablesHoldPath` | openquake/baselib/node.py:726-738 | after any number of generated statements e1..ek are the path to the current node |
| `Nodes.DenotesUnique` | openquake/baselib/node.py:744-745 | an address of the heap denotes one tree |
| `Nodes.EraseIs` | openquake/baselib/node.py:705-718 | what equality up to line numbers means: the same tags, attributes, texts and children |
| `Nodes.RoundTripIff` | openquake/baselib/node.py:705-718 | to elements and back is the identity up to line numbers exactly on nodes with texts only in the leaves |
| `Nodes.CopyIff` | openquake/baselib/node.py:833-844 | the copy raises exactly on a branch with a text, and otherwise is equal up to line numbers |
| `XmlParser.ValidatingXmlParser.StartElement` | openquake/baselib/node.py:924-936 | the new stack after a start event, with all ancestors closed at the stop tag |
| `XmlParser.ValidatingXmlParser.EndElement` | openquake/baselib/node.py:938-946 | the top of the stack is validated, becomes the root and a child of the next |
| `XmlParser.ValidatingXmlParser.CharData` | openquake/baselib/node.py:948-954 | non-empty data is added to the text of the top |
| `XmlParser.ValidatingXmlParser.Parse` | openquake/baselib/node.py:884-907 | the result of feeding the events one by one; for those of a document it is the node of `ParsedNode` |
| `XmlParser.ElementRun` | openquake/baselib/node.py:924-954 | parsing the events of an element under any ancestors is one step that appends its tree |
| `XmlParser.ParserInvertsEmission` | openquake/baselib/node.py:924-993 | for the events of any document the parser ends with the validated tree (cut at the stop tag) and no open ancestor, or raises exactly when a validator does |
| `XmlParser.ParsedNode` | openquake/baselib/node.py:956-993 | the node that the parser ends with has the tag, the line, exactly the attributes, the text and the children of the document, each attribute and text as read or cast by its validator; it raises exactly when one of these validators does |
| `XmlParser.StopsIff` | openquake/baselib/node.py:924-936 | the parser stops early exactly when some element has the stop tag, and has then read the elements that start up to the first of these |
| `XmlParser.TextInOrder` | openquake/baselib/node.py:938-954 | the text of an element is its pieces of character data in order |
| `XmlParser.NothingCut` | openquake/baselib/node.py:933-936 | without a stop tag the whole document is parsed |
| `XmlParser.ChunkingIrrelevant` | openquake/baselib/node.py:938-954 | two documents that differ only in how character data is cut parse alike |
| `XmlParser.ParsedNodesAreSound` | openquake/baselib/node.py:938-946 | parsed nodes respect the invariant of the constructor exactly for documents without mixed content |
| `XmlParser.MixedWitness` | openquake/baselib/node.py:938-954 | a document whose node is a branch with a text |
| `Aggregate.FastAgg` | openquake/baselib/general.py:1085-1117 | cell k of the array is the sum of the values with index k |
| `Aggregate.FastAgg2` | openquake/baselib/general.py:1120-1137 | the distinct keys with the sum of each |
| `Aggregate.GroupingConserves` | openquake/baselib/general.py:1120-1137 | summing group by group conserves the total over any set of keys |
| `Losses.PackIff` | openquake/calculators/event_based_risk.py:123-136 | `divmod` recovers the packed pair exactly when both numbers fit in 32 bits |
| `Losses.FastAggInto` | openquake/calculators/event_based_risk.py:48-60 | accumulates the sum of each key in its cell |
| `Losses.LossTableUnique` | openquake/calculators/event_based_risk.py:133-145 | the table has no two rows with the same event, key and loss type |
| `Losses.LossTableInRange` | openquake/calculators/event_based_risk.py:133-145 | the rows of the table are of known events and their keys are at most K |
| `Losses.RowIff` | openquake/calculators/event_based_risk.py:519-529 | a table without duplicates and zeros is determined by its totals |
| `Losses.TableRowIff` | openquake/calculators/event_based_risk.py:122-145 | a row is in the table exactly when it holds the non-zero losses of its event, over all assets under K, over the assets with its key in each family under another key |
| `Losses.PackedKeysAggregate` | openquake/calculators/event_based_risk.py:122-145 | over any set of (event, key) pairs the table totals the matching rows, under K and in each family |
| `Losses.TotalUnderK` | openquake/calculators/event_based_risk.py:125-126 | the rows under K are the sums over all assets, for any set of events |
| `Losses.FamiliesTimesTotal` | openquake/calculators/event_based_risk.py:125-131 | the keys below K add up to the number of families times the total under K |
| `EventBasedRisk.FancyAdd` | openquake/calculators/event_based_risk.py:506 | what the buffered `+=` adds to each cell: the last datum given for it |
| `EventBasedRisk.PickedIsKeySum` | openquake/calculators/event_based_risk.py:63-81 | the cells of an average are distinct, so that the buffered `+=` adds the sum of all their rows |
| `EventBasedRisk.AggregOutput` | openquake/calculators/event_based_risk.py:110-131 | one output extends the averages of each loss type and the accumulator |
| `EventBasedRisk.Aggreg` | openquake/calculators/event_based_risk.py:95-145 | the averages by loss type and the event loss table of all the outputs |
| `EventBasedRisk.LossCalculator.constructor` | openquake/calculators/event_based_risk.py:416-437 | the calculator starts with a matrix of zeros for each loss type and an empty table |
| `EventBasedRisk.LossCalculator.AddAverages` | openquake/calculators/event_based_risk.py:503-506 | every cell grows by what each sparse matrix has for it |
| `EventBasedRisk.LossCalculator.AddAllAverages` | openquake/calculators/event_based_risk.py:503-506 | the same for all the loss types |
| `EventBasedRisk.LossCalculator.Process` | openquake/calculators/event_based_risk.py:488-506 | after any tasks each cell is the sum of its rows (the rows that `AssetCell` says) and the stored table is that of the tasks |
| `EventBasedRisk.Execute` | openquake/calculators/event_based_risk.py:441-506 | from nothing, whatever the tasks give, the calculator ends with the two aggregations in agreement |
| `EventBasedRisk.AssetTotals` | openquake/calculators/event_based_risk.py:63-81 | the row of an asset adds up to the losses of that asset, whatever was processed |
| `EventBasedRisk.AssetCell` | openquake/calculators/event_based_risk.py:63-81 | each average is the sum of the losses of its asset in its realization; all in column 0 when the realizations are collected or the events belong to the same one |
| `EventBasedRisk.TaskRowsAre` | openquake/calculators/event_based_risk.py:110-131 | the rows that were processed are those of all the outputs of all the tasks |
| `EventBasedRisk.RowsOfSnoc` | openquake/calculators/event_based_risk.py:110-131 | one more output adds the rows of its table for each loss type |
| `EventBasedRisk.AggregationsAgree` | openquake/calculators/post_risk.py:634-655 | before the scaling the average losses over assets and columns equal the event losses under K |
| `EventBasedRisk.ColumnsAgreeIff` | openquake/calculators/event_based_risk.py:63-81 | exactly when each column agrees with the events of its realization |
| `EventBasedRisk.ColumnWitness` | openquake/calculators/event_based_risk.py:67-73 | one event of the second realization whose loss goes to the first column |
| `EventTables.TablesAmount` | openquake/calculators/event_based_risk.py:488-502 | under each event, key and loss type the table of all the tasks holds what the rows of all the tasks put there |
| `EventTables.TablesRows` | openquake/calculators/event_based_risk.py:488-502 | the stored table has the rows of the tables of each task |
| `EventTables.ChecksPass` | openquake/calculators/event_based_risk.py:508-529 | for tasks with disjoint events both checks on the whole table pass: no duplicates, and no more rows than events times keys times loss types |
| `EventSlices.OneSlicePerEvent` | openquake/calculators/event_based_risk.py:184-187 | with contiguous events no event is in two slices |
| `EventSlices.SlicesDisjoint` | openquake/calculators/event_based_risk.py:184-187 | the results of the slices are of disjoint events |
| `EventSlices.SlicingKeepsTable` | openquake/calculators/event_based_risk.py:184-187 | the stored table of the results of the slices has the rows of the table of the whole, without duplicates |
| `EventSlices.SlicingKeepsCells` | openquake/calculators/event_based_risk.py:184-187 | the average losses of the results of the slices are those of the whole |
| `EventSlices.SlicingKeepsResults` | openquake/calculators/event_based_risk.py:488-506 | a calculator fed slice by slice ends with the average losses and the rows of one fed with the whole |
| `Reaggregate.RavelFacts` | openquake/calculators/post_risk.py:140-148 | flat indices and tuples correspond one to one |
| `Reaggregate.ProductAt` | openquake/calculators/post_risk.py:146 | the i-th tuple of the product is the one with flat index i |
| `AggKeys.RavelLast` | openquake/calculators/post_risk.py:146-147 | the flat index of a tuple: the last coordinate runs fastest |
| `Reaggregate.ReaggIdxs` | openquake/calculators/post_risk.py:106-148 | after the loop each cell holds the flat index of the projection of its tuple |
| `Reaggregate.EqualPreimages` | openquake/calculators/post_risk.py:106-148 | every index occurs as many times as there are tuples of dropped tags |
| `Reaggregate.OntoIff` | openquake/calculators/post_risk.py:106-148 | every index occurs exactly when no dropped tag is empty |
| `Reaggregate.OntoWitness` | openquake/calculators/post_risk.py:140-148 | a dropped tag without values |
| `Reaggregate.TwoStepsAreOne` | openquake/calculators/post_risk.py:106-148 | projecting in two steps is projecting once |
| `Reaggregate.GroupByConserves` | openquake/calculators/post_risk.py:602-603 | the group-by-sum conserves the total over any set of rows |
| `Reaggregate.GroupBySumRows` | openquake/calculators/post_risk.py:602-603 | the group-by-sum has one row for each event, loss type and key that has some row, with its total, and no other |
| `Reaggregate.ReaggRows` | openquake/calculators/post_risk.py:597-603 | the reaggregated table has one row for each event, loss type and new index that some row goes to, with the total of the rows that go there, and no other |
| `Reaggregate.ReaggTotal` | openquake/calculators/post_risk.py:597-603 | each total of the new table is the total of the old one over the preimage |
| `Reaggregate.ReaggConserves` | openquake/calculators/post_risk.py:597-603 | for a full product of tags both the sum over the tags and the total are conserved for each event and loss type |
| `Reaggregate.ReaggregatedTagsSumToTotal` | openquake/calculators/post_risk.py:597-603 | from the asset losses to the new table: the sum over the new tags is the new total |
| `AggKeys.OrderIff` | openquake/calculators/post_risk.py:519-527 | exactly when every new index is the position of its key in `agg_keys` |
| `AggKeys.OrderWitness` | openquake/calculators/post_risk.py:144-148 | three tags reaggregated by the third and the first: a cell whose new index is the position of another key |
| `AggKeys.KeysCount` | openquake/risklib/asset.py:236-246 | there are as many keys as new indices, or more if a tag is repeated |
| `AggKeys.TotalKept` | openquake/calculators/post_risk.py:592-601 | whatever the chosen tags, the row of the total after the reaggregation is the total |
| `AggKeys.KeyTotals` | openquake/calculators/post_risk.py:597-603 | when the order is right, the losses under each key are those of the cells with the values of the key, event by event |
| `RateStore.RatesFile.Store` | openquake/calculators/classical.py:58-89 | the columns and the index after one store |
| `RateStore.StoreKeepsIndex` | openquake/calculators/classical.py:66-84 | the slices keep tiling the rows and holding only rows of their chunk |
| `RateStore.StoreKeepsChunks` | openquake/calculators/classical.py:66-82 | a store reorders rows by chunk and not within a chunk |
| `RateStore.RunKeepsIndex` | openquake/calculators/classical.py:58-89 | both, after any sequence of stores |
| `RateStore.CreatedIff` | openquake/calculators/classical.py:59-76 | a file gets its columns with the first rate stored in it |
| `RateStore.IndexFindsChunk` | openquake/calculators/getters.py:304-307 | reading the slices of a chunk gives all its rows, in order |
| `Getters.MapGetter.Init` | openquake/calculators/getters.py:297-318 | the cached map after reading, and when reading raises; once something has been read another call changes nothing |
| `Getters.LoadFilesFacts` | openquake/calculators/getters.py:297-318 | reading raises exactly on a file without rates or a row out of the grid; otherwise each cell has the last rate read for it |
| `Getters.RoundTrip` | openquake/calculators/getters.py:297-318 | after any stores in any files the getter of a chunk has exactly its sites with their stored rates |
| `Getters.MapGetters` | openquake/calculators/getters.py:170-202 | one fresh getter for each chunk, with the weights of the groups and no lists of realizations for the fast mean, with the weights and the lists of the realizations otherwise; or the error for a disaggregation with too few chunks |
| `Getters.BuildRates` | openquake/calculators/getters.py:225-234 | the dictionary of all the getters, in order |
| `Getters.MergedRoundTrip` | openquake/calculators/getters.py:225-234 | the getters together return what was stored: no site lost, none served twice, each cell with its last rate |
| `Getters.AllReadBackIff` | openquake/calculators/getters.py:317 | every stored rate is read back exactly when no cell was stored with two values |
| `Getters.OverwrittenWitness` | openquake/calculators/getters.py:317 | two rates for one cell |
| `FastMean.Accumulate` | openquake/calculators/getters.py:326-333 | the double loop gives each realization the rates of its groups, once for each time it is listed |
| `FastMean.WhereItGoes` | openquake/calculators/getters.py:329-333 | the number t * 2^24 + k stands for realization k, in the rates and in the weights |
| `FastMean.InGroupAppend` | openquake/calculators/getters.py:329-333 | a realization gets the rate of a group once for each listing |
| `FastMean.GetHCurve` | openquake/calculators/getters.py:320-334 | the curves of a site, zeros if it has no rates; it raises when reading does, or on a site with rates when the getter is for the fast mean |
| `FastMean.BuildStatCurve` | openquake/calculators/getters.py:44-69 | any statistic at each level: of the probabilities, or the probability of that of the rates; with weights common to all measures or by measure (zero where they sum to zero); it raises on a wrong number of weights or when the statistic does |
| `FastMean.GetFastMean` | openquake/calculators/getters.py:336-350 | the mean of each site by the weights of the groups |
| `FastMean.GroupsBeforeRealizations` | openquake/calculators/views.py:1391-1397 | weighting realizations after the accumulation is weighting groups before it |
| `FastMean.FastIsSlowIff` | openquake/calculators/getters.py:44-69 | exactly when the fast mean is the slow mean on rates |
| `FastMean.MeanWitness` | openquake/calculators/getters.py:336-350 | a realization of weight 2 |
| `FastMean.FastMeanIsSlowMean` | openquake/calculators/getters.py:336-350 | for weights that sum to one they are equal level by level |
| `FastMean.Means` | openquake/calculators/classical.py:222-311 | the two programs on the getters that they are given: reading, accumulating and averaging a site gives the curve of the fast mean |
| `RuptureMerge.ImportRuptures` | openquake/calculators/base.py:1347-1384 | the merged tables, the starts and the runs by tectonic region; an exception exactly when some file has no geometries or no file has ruptures |
| `RuptureMerge.MergeConsistent` | openquake/calculators/base.py:1364-1378 | merging files whose ids are positions gives such a file |
| `RuptureMerge.MergeSizes` | openquake/calculators/base.py:1364-1378 | as many events, ruptures and geometries as in all the files |
| `RuptureMerge.ReferencesKept` | openquake/calculators/base.py:1364-1378 | every imported event names its own rupture, which is the one of its file with its ids moved and nothing else changed but the start, and that finds its own geometry |
| `RuptureMerge.GeometryKeptIff` | openquake/calculators/base.py:1375-1377 | exactly when a rupture finds its own geometry, among distinct ones |
| `RuptureMerge.GeometryWitness` | openquake/calculators/base.py:1375-1377 | a file with more geometries than ruptures |
| `RuptureMerge.StartsIff` | openquake/calculators/base.py:1382-1383 | exactly when the starts are the prefix sums and the intervals consecutive from zero |
| `RuptureMerge.StartsWitness` | openquake/calculators/base.py:1382-1383 | a first rupture that starts at event 5 |
| `RuptureMerge.EventsOfRupture` | openquake/calculators/base.py:1364-1383 | the events of an imported rupture are exactly those of its interval |
| `TileCollect.Collect` | openquake/commands/collect_jobs.py:26-66 | the collected sites and curves, and the exceptions |
| `TileCollect.InversePermutation` | openquake/commands/collect_jobs.py:43-49 | sorting the concatenated modular lists inverts them |
| `TileCollect.CollectInvertsSlicing` | openquake/commands/collect_jobs.py:43-63 | picking the sorted positions of the concatenated slices restores any sequence |
| `TileCollect.CollectInvertsTiling` | openquake/commands/collect_jobs.py:26-66 | collecting the tiles of a complete calculation restores its sites, numbered from 0, and its curves |
| `TileCollect.RowOfTile` | openquake/commands/collect_jobs.py:43-63 | row q * m + t of what is saved, sites and curves, is row q of tile t |
| `TileCollect.RowsIff` | openquake/commands/collect_jobs.py:43-63 | every saved row, of sites and curves, is the row of its tile exactly when the tiles have the sizes of a modular tiling |
| `TileCollect.SizesWitness` | openquake/commands/collect_jobs.py:43-63 | two tiles whose third row has no place |

## Left out

- Sockets, process and thread pools, SLURM, pickling, compression, shared memory, timings, task
  information and memory: channels are abstract and payloads opaque. A worker that dies without
  sending its end marker hangs the real loop and is outside the well-behaved tasks.
- The debugging variable that submits one task only, and the version check of results.
- Infinite generators: a task is a finite tree of what it produces. What it produces does not depend
  on when it runs.
- SplitTask.SplitTask: where the duration is exceeded is a parameter instead of a clock.
- Blocks.BlockSplitter: blocks are values when they are yielded; a block is not changed after it is
  yielded. The splitting of data frames in `split_in_blocks` is not modelled.
- ApplySplit.ApplySplit: each call of the task function gives a value or an exception that can be sent;
  what happens otherwise is the subject of `Tasks.EndsOnceIff` and `SplitTask.SplitBehavesIff`.
- AccumDict.AccumDict.IAdd: values are immutable, so that the sharing of a mutable value between two
  dictionaries is not captured; subtraction, division and the other operators are not modelled.
- Kernels.IdxStartStop: an empty array is an error of the caller, since the kernels read the first
  element without looking; the same holds for Kernels.SplitSlices.
- CountingSort.FillBuckets: `counts` is the exact histogram of the indices, as the only callers make
  it; values are mathematical integers.
- Nodes.NodeToElem: `repr` and the evaluation of literals are the identity; namespaces, lazy children
  and the XML text itself are left out.
- XmlParser.ValidatingXmlParser.Parse: the events come from a well-formed document; the
  messages of the exceptions, the file names and the closing of namespaces are left out.
- Aggregate.FastAgg2: the distinct keys come in order of appearance and not sorted, and the
  accumulator of the losses is in order of insertion; no property depends on that order.
- Losses.PackedKeysAggregate: the correlated variances (square roots) and the wrap-around of 64-bit
  keys are left out; the setup bounds events and keys by 2^32.
- EventBasedRisk.AggregationsAgree: rounding and the calculations without average losses are left out;
  the comparison of the source is after scaling and up to a tolerance.
- EventSlices.SlicingKeepsTable: the risk functions enter by their contract, that the losses of a
  known event depend on its ground motion only.
- Reaggregate.ReaggIdxs: the assignment through an index tuple is an assignment to all the cells with
  those coordinates.
- RateStore.RatesFile.Store: HDF5 files are growable columns; the number of chunks is positive and the
  same for all stores. The choice of the file is left to the caller.
- Getters.MapGetter.Init: the grids in the cached map are values, each owned by one site; the files have
  slices within their rows.
- FastMean.BuildStatCurve: statistics work level by level and are parameters, the mean apart; so are the
  conversions between rates and probabilities. The fast mean is compared with the slow one for weights
  common to all measures, the only ones it knows.
- RuptureMerge.ImportRuptures: the unsigned widths of the ids, and the logic trees stored next to the
  ruptures.
- TileCollect.Collect: one dataset of curves stands for all of them; argsort is a parameter with
  its contract. Performance data and attributes are left out.
- `multispawn`, `get_slices`, `kollapse`, the tiling of sites by geohash and the command line: simple
  or separate.

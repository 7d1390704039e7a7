/** The Starmap protocol. */
module Protocol {
  // The master of `_loop` with its task queue and one FIFO channel per submitted task, as a
  // state machine. A run is any interleaving of the channels.

  import opened Basics
  import opened Reals
  import opened Tasks

  datatype State<!V> = State(
    queue: seq<Task<V>>,                // self.task_queue
    tasks: seq<nat>,                    // self.tasks, the numbers of the running tasks
    taskNo: nat,                        // self.task_no
    finished: set<nat>,
    nOut: nat,                          // self.n_out
    channels: seq<seq<Message<V>>>,     // by task number, what has still to arrive
    inbox: seq<seq<Message<V>>>,        // by task number, what has arrived
    submitted: seq<Task<V>>,            // by task number
    spawned: seq<Task<V>>,              // the subtasks, in order of arrival
    output: seq<(nat, Outcome<V>)>)     // what the loop yielded, with the task it is from

  /** The next result on the socket: the next message of some task, or a result
      that belongs to another job and is discarded. */
  datatype Event = From(no: nat) | Foreign

  // ----- transitions

  function Initial<V>(queue: seq<Task<V>>): State<V> {
    State(queue, [], 0, {}, 0, [], [], [], [], [])
  }

  function Submit<V>(s: State<V>, t: Task<V>): State<V> {
    s.(tasks := s.tasks + [s.taskNo], taskNo := s.taskNo + 1,
       channels := s.channels + [Messages(t)], inbox := s.inbox + [[]],
       submitted := s.submitted + [t])
  }

  /** `_submit_many(1)`: submit the first task of the queue, if there is one. */
  function SubmitOne<V>(s: State<V>): State<V> {
    if s.queue == [] then s else Submit(s.(queue := s.queue[1..]), s.queue[0])
  }

  function SubmitMany<V>(s: State<V>, howmany: nat): State<V>
    decreases howmany
  {
    if howmany == 0 then s else SubmitMany(SubmitOne(s), howmany - 1)
  }

  /** `list.remove`: drop the first occurrence. */
  function Remove(xs: seq<nat>, x: nat): seq<nat>
    requires x in xs
  {
    if xs[0] == x then xs[1..] else [xs[0]] + Remove(xs[1..], x)
  }

  predicate Enabled<V>(s: State<V>, e: Event) {
    match e
    case Foreign => true
    case From(i) => i < |s.channels| && i < |s.inbox| && s.channels[i] != []
  }

  function Arrive<V>(s: State<V>, i: nat): State<V>
    requires Enabled(s, From(i))
  {
    s.(channels := s.channels[i := s.channels[i][1..]],
       inbox := s.inbox[i := s.inbox[i] + [s.channels[i][0]]])
  }

  /** One iteration of `_loop`. `tasks.remove` raises when the task is not running:
      that state is None, and `StepSafe` shows it is never reached. */
  function Handle<V>(s: State<V>, e: Event): (r: Option<State<V>>)
    requires Enabled(s, e)
  {
    match e
    case Foreign => Some(s)
    case From(i) =>
      var a := Arrive(s, i);
      match s.channels[i][0]
      case TaskEnded =>
        if i !in a.tasks then None
        else Some(SubmitOne(a.(finished := a.finished + {i}, tasks := Remove(a.tasks, i))))
      case Subtask(t) => Some(SubmitOne(a.(queue := a.queue + [t], spawned := a.spawned + [t])))
      case Output(o) => Some(a.(nOut := a.nOut + 1, output := a.output + [(i, o)]))
  }

  /** `sched` is a run of the loop from `s` to `z`. */
  ghost predicate Run<V>(s: State<V>, sched: seq<Event>, z: State<V>)
    decreases |sched|
  {
    if sched == [] then s == z
    else
      && s.tasks != []
      && Enabled(s, sched[0])
      && Handle(s, sched[0]).Some?
      && Run(Handle(s, sched[0]).value, sched[1..], z)
  }

  // ----- what every step keeps

  /** `tasks` has no duplicates and is range(task_no) minus `finished`. */
  ghost predicate Numbering<V>(s: State<V>) {
    && |s.channels| == |s.inbox| == |s.submitted| == s.taskNo
    && Distinct(s.tasks)
    && (forall i :: i in s.tasks <==> 0 <= i < s.taskNo && i !in s.finished)
    && (forall i :: i in s.finished ==> i < s.taskNo)
  }

  ghost predicate AllWellBehaved<V>(ts: seq<Task<V>>) {
    forall i :: 0 <= i < |ts| ==> WellBehavedTree(ts[i])
  }

  /** Each channel has delivered a prefix of what its task sends, and it has
      delivered everything exactly when the task is finished. */
  ghost predicate Delivery<V>(s: State<V>)
    requires Numbering(s)
  {
    && (forall i :: 0 <= i < s.taskNo ==> s.inbox[i] + s.channels[i] == Messages(s.submitted[i]))
    && (forall i :: 0 <= i < s.taskNo ==> (s.channels[i] == [] <==> i in s.finished))
    && AllWellBehaved(s.submitted)
    && AllWellBehaved(s.queue)
    && s.nOut == |s.output|
  }

  /** The outputs of task i among those yielded by the loop, in order. */
  function OutputsFrom<V>(output: seq<(nat, Outcome<V>)>, i: nat): seq<Outcome<V>> {
    if output == [] then []
    else
      var front := OutputsFrom(output[..|output| - 1], i);
      var last := output[|output| - 1];
      if last.0 == i then front + [last.1] else front
  }

  /** The queue is first in, first out: tasks are submitted in the order in which they were
      given or spawned. The outputs of a task are yielded in the order it produced them. */
  ghost predicate Order<V>(s: State<V>, given: seq<Task<V>>)
    requires Numbering(s)
  {
    && s.submitted + s.queue == given + s.spawned
    && (forall i :: 0 <= i < s.taskNo ==> OutputsFrom(s.output, i) == Outs(s.inbox[i]))
    && (forall k :: 0 <= k < |s.output| ==> s.output[k].0 < s.taskNo)
  }

  function Values<V>(output: seq<(nat, Outcome<V>)>): seq<Outcome<V>> {
    seq(|output|, k requires 0 <= k < |output| => output[k].1)
  }

  ghost function InFlight<V>(channels: seq<seq<Message<V>>>): multiset<Outcome<V>> {
    if channels == [] then multiset{} else OutputsOf(channels[0]) + InFlight(channels[1..])
  }

  ghost function ToSpawn<V>(channels: seq<seq<Message<V>>>): multiset<Task<V>> {
    if channels == [] then multiset{} else TasksOf(channels[0]) + ToSpawn(channels[1..])
  }

  /** Nothing is lost or duplicated: what was yielded, what is in flight and what is queued
      add up to the outputs of the given tasks; the same for the tasks themselves. */
  ghost predicate Conservation<V>(s: State<V>, given: seq<Task<V>>) {
    OutputsConserved(s, given) && TasksConserved(s, given)
  }

  ghost predicate OutputsConserved<V>(s: State<V>, given: seq<Task<V>>) {
    multiset(Values(s.output)) + InFlight(s.channels) + ForestOutputs(s.queue) == ForestOutputs(given)
  }

  ghost predicate TasksConserved<V>(s: State<V>, given: seq<Task<V>>) {
    multiset(s.submitted) + ToSpawn(s.channels) + ForestTasks(s.queue) == ForestTasks(given)
  }

  ghost predicate Core<V>(s: State<V>, given: seq<Task<V>>) {
    Numbering(s) && Delivery(s) && Order(s, given) && Conservation(s, given)
  }

  /** The loop invariant of the master. The last conjunct is what makes it enough for the
      loop to look at `tasks` only: no task is queued unless some task is running. */
  ghost predicate Inv<V>(s: State<V>, given: seq<Task<V>>) {
    Core(s, given) && (s.queue != [] ==> s.tasks != [])
  }

  // ----- sums over channels

  lemma {:induction false} FlightAppend<V>(a: seq<seq<Message<V>>>, c: seq<Message<V>>)
    ensures InFlight(a + [c]) == InFlight(a) + OutputsOf(c)
    ensures ToSpawn(a + [c]) == ToSpawn(a) + TasksOf(c)
  {
    if a == [] {
      assert a + [c] == [c];
      assert [c][1..] == [];
    } else {
      assert (a + [c])[1..] == a[1..] + [c];
      FlightAppend(a[1..], c);
    }
  }

  lemma {:induction false} FlightUpdate<V>(a: seq<seq<Message<V>>>, i: nat, c: seq<Message<V>>)
    requires i < |a|
    ensures InFlight(a[i := c]) + OutputsOf(a[i]) == InFlight(a) + OutputsOf(c)
    ensures ToSpawn(a[i := c]) + TasksOf(a[i]) == ToSpawn(a) + TasksOf(c)
  {
    hide OutputsOf, TasksOf;
    if i == 0 {
      assert a[i := c][1..] == a[1..];
    } else {
      assert a[i := c][1..] == a[1..][i - 1 := c];
      FlightUpdate(a[1..], i - 1, c);
      AddLeft(OutputsOf(a[0]), InFlight(a[1..][i - 1 := c]), OutputsOf(a[i]), InFlight(a[1..]), OutputsOf(c));
      AddLeft(TasksOf(a[0]), ToSpawn(a[1..][i - 1 := c]), TasksOf(a[i]), ToSpawn(a[1..]), TasksOf(c));
    }
  }

  lemma {:induction false} AddLeft<X>(h: multiset<X>, a: multiset<X>, b: multiset<X>, c: multiset<X>, d: multiset<X>)
    requires a + b == c + d
    ensures (h + a) + b == (h + c) + d
  {
    forall x ensures ((h + a) + b)[x] == ((h + c) + d)[x] {
      assert (a + b)[x] == (c + d)[x];
    }
  }

  lemma {:induction false} Cancel<X>(a: multiset<X>, m: multiset<X>, b: multiset<X>, c: multiset<X>)
    requires a + (m + b) == c + b
    ensures a + m == c
  {
    forall x ensures (a + m)[x] == c[x] {
      assert (a + (m + b))[x] == (c + b)[x];
    }
  }

  /** Moving m out of f, to the left or to the right, keeps the total. */
  lemma {:induction false} Move<X>(v: multiset<X>, f: multiset<X>, q: multiset<X>, f': multiset<X>, m: multiset<X>)
    requires f' + m == f
    ensures (v + f') + (q + m) == (v + f) + q
    ensures ((v + m) + f') + q == (v + f) + q
  {
  }

  // ----- the transitions keep the invariant

  lemma {:induction false} RemoveFacts(xs: seq<nat>, x: nat)
    requires x in xs && Distinct(xs)
    ensures Distinct(Remove(xs, x))
    ensures forall y :: y in Remove(xs, x) <==> y in xs && y != x
    ensures |Remove(xs, x)| == |xs| - 1
  {
    if xs[0] == x {
      assert forall y :: y in xs[1..] ==> y in xs && y != x;
      assert forall y :: y in xs && y != x ==> y in xs[1..];
    } else {
      var tail := xs[1..];
      assert x in tail;
      RemoveFacts(tail, x);
      var r := Remove(xs, x);
      assert r == [xs[0]] + Remove(tail, x);
      assert forall y :: y in r <==> y == xs[0] || y in Remove(tail, x);
      assert forall y :: y in xs <==> y == xs[0] || y in tail;
      assert xs[0] !in tail;
    }
  }

  lemma {:induction false} NoOutputs<V>(output: seq<(nat, Outcome<V>)>, i: nat)
    requires forall k :: 0 <= k < |output| ==> output[k].0 != i
    ensures OutputsFrom(output, i) == []
  {
    if output != [] {
      NoOutputs(output[..|output| - 1], i);
    }
  }

  lemma {:induction false} SubmitOneConserves<V>(s: State<V>, given: seq<Task<V>>)
    requires Conservation(s, given)
    ensures Conservation(SubmitOne(s), given)
  {
    hide OutputsOf, TasksOf, InFlight, ToSpawn, Messages;
    if s.queue != [] {
      var t, rest := s.queue[0], s.queue[1..];
      FlightAppend(s.channels, Messages(t));
      assert s.queue == [t] + rest;
      assert multiset(s.submitted + [t]) == multiset(s.submitted) + multiset{t};
    }
  }

  lemma {:induction false} SubmitOneNumbering<V>(s: State<V>)
    requires Numbering(s)
    ensures Numbering(SubmitOne(s))
    ensures SubmitOne(s).queue != [] ==> SubmitOne(s).tasks != []
  {
    assert s.taskNo !in s.tasks;
  }

  lemma {:induction false} SubmitOneDelivery<V>(s: State<V>)
    requires Numbering(s) && Delivery(s)
    ensures Numbering(SubmitOne(s)) && Delivery(SubmitOne(s))
  {
    SubmitOneNumbering(s);
    if s.queue != [] {
      assert WellBehavedTree(s.queue[0]) && WellBehaved(s.queue[0]);
      EndsOnceIff(s.queue[0]);
      var z := SubmitOne(s);
      assert AllWellBehaved(z.queue);
      assert AllWellBehaved(z.submitted);
    }
  }

  lemma {:induction false} SubmitOneOrder<V>(s: State<V>, given: seq<Task<V>>)
    requires Numbering(s) && Order(s, given)
    ensures Numbering(SubmitOne(s)) && Order(SubmitOne(s), given)
  {
    SubmitOneNumbering(s);
    if s.queue != [] {
      NoOutputs(s.output, s.taskNo);
      assert s.submitted + [s.queue[0]] + s.queue[1..] == s.submitted + s.queue;
    }
  }

  lemma {:induction false} SubmitOneKeeps<V>(s: State<V>, given: seq<Task<V>>)
    requires Core(s, given)
    ensures Inv(SubmitOne(s), given)
  {
    SubmitOneNumbering(s);
    SubmitOneDelivery(s);
    SubmitOneOrder(s, given);
    SubmitOneConserves(s, given);
  }

  /** In a running task, messages arrive in order and the TASK_ENDED is the last. */
  lemma {:induction false} ArriveFacts<V>(s: State<V>, i: nat)
    requires Numbering(s) && Delivery(s) && Enabled(s, From(i))
    ensures i in s.tasks && i !in s.finished
    ensures s.channels[i][0].TaskEnded? <==> s.channels[i][1..] == []
    ensures s.channels[i][0].Subtask? ==> WellBehavedTree(s.channels[i][0].t)
    ensures (s.inbox[i] + [s.channels[i][0]]) + s.channels[i][1..] == Messages(s.submitted[i])
    ensures Outs(s.inbox[i] + [s.channels[i][0]]) == Outs(s.inbox[i]) +
            (if s.channels[i][0].Output? then [s.channels[i][0].o] else [])
  {
    var ms, got, left := Messages(s.submitted[i]), s.inbox[i], s.channels[i];
    EndsOnceIff(s.submitted[i]);
    assert ms == got + left;
    assert left[0] == ms[|got|];
    assert left[0] in ms;
    SubsWellBehaved(s.submitted[i]);
    OutsAppend(got, [left[0]]);
    assert Outs([left[0]]) == if left[0].Output? then [left[0].o] else [];
  }

  lemma {:induction false} QueueOne<V>(queue: seq<Task<V>>, t: Task<V>)
    ensures ForestOutputs(queue + [t]) == ForestOutputs(queue) + OutputsOf(Messages(t))
    ensures ForestTasks(queue + [t]) == ForestTasks(queue) + (multiset{t} + TasksOf(Messages(t)))
  {
    ForestAppend(queue, [t]);
    assert [t][1..] == [];
    assert ForestOutputs([t]) == OutputsOf(Messages(t)) + ForestOutputs<V>([]);
    assert ForestTasks([t]) == multiset{t} + TasksOf(Messages(t)) + ForestTasks<V>([]);
  }

  lemma {:induction false} HeadCounts<V>(left: seq<Message<V>>)
    requires left != []
    ensures match left[0]
            case TaskEnded => OutputsOf(left) == multiset{} + OutputsOf(left[1..])
              && TasksOf(left) == multiset{} + TasksOf(left[1..])
            case Output(o) => OutputsOf(left) == multiset{o} + OutputsOf(left[1..])
              && TasksOf(left) == multiset{} + TasksOf(left[1..])
            case Subtask(t) => (OutputsOf(left) == OutputsOf(Messages(t)) + OutputsOf(left[1..])
              && TasksOf(left) == (multiset{t} + TasksOf(Messages(t))) + TasksOf(left[1..]))
  {
    hide Messages;
  }

  /** Taking a message off a channel takes out of flight what the message stands for. */
  lemma {:induction false} ArriveFlight<V>(channels: seq<seq<Message<V>>>, i: nat)
    requires i < |channels| && channels[i] != []
    ensures var z := channels[i := channels[i][1..]];
            match channels[i][0]
            case TaskEnded => InFlight(z) == InFlight(channels) && ToSpawn(z) == ToSpawn(channels)
            case Output(o) => InFlight(z) + multiset{o} == InFlight(channels) && ToSpawn(z) == ToSpawn(channels)
            case Subtask(t) => (InFlight(z) + OutputsOf(Messages(t)) == InFlight(channels)
              && ToSpawn(z) + (multiset{t} + TasksOf(Messages(t))) == ToSpawn(channels))
  {
    var left, z := channels[i], channels[i := channels[i][1..]];
    FlightUpdate(channels, i, left[1..]);
    HeadCounts(left);
    hide InFlight, ToSpawn, OutputsOf, TasksOf, Messages;
    match left[0]
    case TaskEnded =>
      Cancel(InFlight(z), multiset{}, OutputsOf(left[1..]), InFlight(channels));
      Cancel(ToSpawn(z), multiset{}, TasksOf(left[1..]), ToSpawn(channels));
    case Output(o) =>
      Cancel(InFlight(z), multiset{o}, OutputsOf(left[1..]), InFlight(channels));
      Cancel(ToSpawn(z), multiset{}, TasksOf(left[1..]), ToSpawn(channels));
    case Subtask(t) =>
      Cancel(InFlight(z), OutputsOf(Messages(t)), OutputsOf(left[1..]), InFlight(channels));
      Cancel(ToSpawn(z), multiset{t} + TasksOf(Messages(t)), TasksOf(left[1..]), ToSpawn(channels));
  }

  lemma {:induction false} EndedCore<V>(s: State<V>, i: nat, given: seq<Task<V>>)
    requires Core(s, given) && Enabled(s, From(i)) && s.channels[i][0].TaskEnded?
    requires i in s.tasks
    ensures var a := Arrive(s, i);
            Core(a.(finished := a.finished + {i}, tasks := Remove(a.tasks, i)), given)
  {
    hide WellBehavedTree, Messages, OutputsOf, TasksOf, InFlight, ToSpawn, ForestOutputs, ForestTasks;
    var a := Arrive(s, i);
    ArriveFacts(s, i);
    ArriveFlight(s.channels, i);
    RemoveFacts(s.tasks, i);
    var b := a.(finished := a.finished + {i}, tasks := Remove(a.tasks, i));
    assert Numbering(b);
    assert Delivery(b);
    assert Order(b, given);
  }

  lemma {:induction false} SubtaskCore<V>(s: State<V>, i: nat, given: seq<Task<V>>)
    requires Core(s, given) && Enabled(s, From(i)) && s.channels[i][0].Subtask?
    ensures var a, t := Arrive(s, i), s.channels[i][0].t;
            Core(a.(queue := a.queue + [t], spawned := a.spawned + [t]), given)
  {
    hide WellBehavedTree, Messages, OutputsOf, TasksOf, InFlight, ToSpawn, ForestOutputs, ForestTasks;
    var a, t := Arrive(s, i), s.channels[i][0].t;
    ArriveFacts(s, i);
    ArriveFlight(s.channels, i);
    QueueOne(s.queue, t);
    var b := a.(queue := a.queue + [t], spawned := a.spawned + [t]);
    Move(multiset(Values(s.output)), InFlight(s.channels), ForestOutputs(s.queue), InFlight(a.channels),
      OutputsOf(Messages(t)));
    Move(multiset(s.submitted), ToSpawn(s.channels), ForestTasks(s.queue), ToSpawn(a.channels),
      multiset{t} + TasksOf(Messages(t)));
    assert Numbering(b) && Delivery(b);
    assert a.submitted + (a.queue + [t]) == (a.submitted + a.queue) + [t];
    assert given + (a.spawned + [t]) == (given + a.spawned) + [t];
    assert Order(b, given);
  }

  lemma {:induction false} OutputCore<V>(s: State<V>, i: nat, given: seq<Task<V>>)
    requires Core(s, given) && Enabled(s, From(i)) && s.channels[i][0].Output?
    ensures var a, o := Arrive(s, i), s.channels[i][0].o;
            Core(a.(nOut := a.nOut + 1, output := a.output + [(i, o)]), given)
  {
    hide WellBehavedTree, Messages, OutputsOf, TasksOf, InFlight, ToSpawn, ForestOutputs, ForestTasks;
    var a, o := Arrive(s, i), s.channels[i][0].o;
    ArriveFacts(s, i);
    ArriveFlight(s.channels, i);
    var b := a.(nOut := a.nOut + 1, output := a.output + [(i, o)]);
    assert Values(b.output) == Values(a.output) + [o];
    Move(multiset(Values(s.output)), InFlight(s.channels), ForestOutputs(s.queue), InFlight(a.channels), multiset{o});
    assert b.output[..|b.output| - 1] == a.output;
    assert Numbering(b) && Delivery(b);
    assert Order(b, given);
  }

  /** No step fails, and every step keeps the invariant. */
  lemma {:induction false} StepSafe<V>(s: State<V>, e: Event, given: seq<Task<V>>)
    requires Inv(s, given) && Enabled(s, e)
    ensures Handle(s, e).Some? && Inv(Handle(s, e).value, given)
  {
    if e.From? {
      var i := e.no;
      var a := Arrive(s, i);
      ArriveFacts(s, i);
      match s.channels[i][0]
      case TaskEnded =>
        EndedCore(s, i, given);
        SubmitOneKeeps(a.(finished := a.finished + {i}, tasks := Remove(a.tasks, i)), given);
      case Subtask(t) =>
        SubtaskCore(s, i, given);
        SubmitOneKeeps(a.(queue := a.queue + [t], spawned := a.spawned + [t]), given);
      case Output(o) =>
        OutputCore(s, i, given);
    }
  }

  // ----- whole runs

  /** The state in which the loop starts: `howmany` of the given tasks are submitted at
      once (all of them for a lazy sequence of arguments or on slurm, else the first CT). */
  function Start<V>(given: seq<Task<V>>, howmany: nat): State<V> {
    SubmitMany(Initial(given), howmany)
  }

  lemma {:induction false} InitialCore<V>(given: seq<Task<V>>)
    requires AllWellBehaved(given)
    ensures Core(Initial(given), given)
  {
    assert Values(Initial(given).output) == [];
    assert given + [] == given;
  }

  lemma {:induction false} SubmitManyKeeps<V>(s: State<V>, howmany: nat, given: seq<Task<V>>)
    requires Core(s, given)
    ensures Core(SubmitMany(s, howmany), given)
    ensures howmany > 0 ==> Inv(SubmitMany(s, howmany), given)
    decreases howmany
  {
    hide Core;
    if howmany > 0 {
      SubmitOneKeeps(s, given);
      SubmitManyKeeps(SubmitOne(s), howmany - 1, given);
    }
  }

  lemma {:induction false} RunKeeps<V>(s: State<V>, sched: seq<Event>, z: State<V>, given: seq<Task<V>>)
    requires Inv(s, given) && Run(s, sched, z)
    ensures Inv(z, given)
    decreases |sched|
  {
    if sched != [] {
      StepSafe(s, sched[0], given);
      RunKeeps(Handle(s, sched[0]).value, sched[1..], z, given);
    }
  }

  lemma {:induction false} StartInv<V>(given: seq<Task<V>>, howmany: nat)
    requires AllWellBehaved(given)
    requires howmany > 0 || given == []
    ensures Inv(Start(given, howmany), given)
  {
    InitialCore(given);
    SubmitManyKeeps(Initial(given), howmany, given);
    if given == [] {
      EmptyQueueStays(Initial(given), howmany);
    }
  }

  lemma {:induction false} EmptyQueueStays<V>(s: State<V>, howmany: nat)
    requires s.queue == []
    ensures SubmitMany(s, howmany) == s
    decreases howmany
  {
    if howmany > 0 {
      EmptyQueueStays(SubmitOne(s), howmany - 1);
    }
  }

  lemma {:induction false} NothingInFlight<V>(channels: seq<seq<Message<V>>>)
    requires forall i :: 0 <= i < |channels| ==> channels[i] == []
    ensures InFlight(channels) == multiset{} && ToSpawn(channels) == multiset{}
  {
    if channels != [] {
      NothingInFlight(channels[1..]);
    }
  }

  /** The tasks are numbered in the order in which they were given or spawned, each of them
      is finished, each channel has been read to its end, and each task ended once. */
  ghost predicate EveryTaskEndedOnce<V>(z: State<V>, given: seq<Task<V>>) {
    && z.submitted == given + z.spawned
    && z.taskNo == |z.submitted| == |z.inbox|
    && (forall i :: i in z.finished <==> 0 <= i < z.taskNo)
    && (forall i :: 0 <= i < z.taskNo ==> z.inbox[i] == Messages(z.submitted[i]) && EndsOnce(z.inbox[i]))
  }

  /** In every run, with the channels interleaved in any way, when the loop exits: the queue
      is empty; every given task and every subtask spawned at any depth has been submitted
      exactly once and has ended exactly once; every output has been yielded exactly
      once, those of one task in the order in which it produced them. */
  lemma {:induction false} NoWorkLostOrDuplicated<V>(given: seq<Task<V>>, howmany: nat, sched: seq<Event>, z: State<V>)
    requires AllWellBehaved(given)
    requires howmany > 0 || given == []
    requires Run(Start(given, howmany), sched, z) && z.tasks == []
    ensures z.queue == []
    ensures EveryTaskEndedOnce(z, given)
    ensures multiset(z.submitted) == ForestTasks(given)
    ensures multiset(Values(z.output)) == ForestOutputs(given)
    ensures forall i :: 0 <= i < z.taskNo ==> OutputsFrom(z.output, i) == Outs(Messages(z.submitted[i]))
    ensures forall i :: 0 <= i < z.taskNo ==> Yielded(z.submitted[i], OutputsFrom(z.output, i))
  {
    hide OutputsFrom, Messages, Yielded, AllWellBehaved, Core;
    StartInv(given, howmany);
    RunKeeps(Start(given, howmany), sched, z, given);
    ChannelsRead(z, given);
    AllDelivered(z, given);
  }

  /** The outputs of a task among all those yielded: the k-th one comes after as many of the same task
      as there are before it. */
  lemma {:induction false} OutputsFromAt<V>(output: seq<(nat, Outcome<V>)>, k: nat)
    requires k < |output|
    ensures var i := output[k].0;
      |OutputsFrom(output[..k], i)| < |OutputsFrom(output, i)|
      && OutputsFrom(output, i)[|OutputsFrom(output[..k], i)|] == output[k].1
    ensures forall i: nat :: i != output[k].0 ==> OutputsFrom(output[..k + 1], i) == OutputsFrom(output[..k], i)
  {
    assert output[..k + 1][..k] == output[..k];
    var i := output[k].0;
    MoreOutputs(output[..k + 1], output[k + 1..], i);
    assert output[..k + 1] + output[k + 1..] == output;
  }

  lemma {:induction false} MoreOutputs<V>(a: seq<(nat, Outcome<V>)>, b: seq<(nat, Outcome<V>)>, i: nat)
    ensures OutputsFrom(a, i) <= OutputsFrom(a + b, i)
  {
    if b == [] {
      assert a + b == a;
    } else {
      assert (a + b)[..|a + b| - 1] == a + b[..|b| - 1];
      MoreOutputs(a, b[..|b| - 1], i);
    }
  }

  lemma {:induction false} ChannelsRead<V>(z: State<V>, given: seq<Task<V>>)
    requires Inv(z, given) && z.tasks == []
    ensures EveryTaskEndedOnce(z, given)
    ensures forall i :: 0 <= i < z.taskNo ==> OutputsFrom(z.output, i) == Outs(Messages(z.submitted[i]))
    ensures forall i :: 0 <= i < z.taskNo ==> Yielded(z.submitted[i], OutputsFrom(z.output, i))
  {
    hide Conservation, OutputsFrom, Messages, Yielded, Outs;
    forall i | 0 <= i < z.taskNo
      ensures z.inbox[i] == Messages(z.submitted[i]) && EndsOnce(z.inbox[i])
      ensures Yielded(z.submitted[i], Outs(Messages(z.submitted[i])))
    {
      assert i !in z.tasks && z.channels[i] == [];
      assert z.inbox[i] + [] == z.inbox[i];
      EndsOnceIff(z.submitted[i]);
      assert WellBehavedTree(z.submitted[i]);
      OutsAreYielded(z.submitted[i]);
    }
  }

  lemma {:induction false} AllDelivered<V>(z: State<V>, given: seq<Task<V>>)
    requires Inv(z, given) && z.tasks == []
    ensures multiset(z.submitted) == ForestTasks(given)
    ensures multiset(Values(z.output)) == ForestOutputs(given)
  {
    hide Order, Messages, OutputsConserved, TasksConserved;
    assert forall i :: 0 <= i < |z.channels| ==> i !in z.tasks && z.channels[i] == [];
    NothingInFlight(z.channels);
    NothingLeft(z, given);
  }

  lemma {:induction false} NothingLeft<V>(z: State<V>, given: seq<Task<V>>)
    requires OutputsConserved(z, given) && TasksConserved(z, given) && z.queue == []
    requires InFlight(z.channels) == multiset{} && ToSpawn(z.channels) == multiset{}
    ensures multiset(z.submitted) == ForestTasks(given)
    ensures multiset(Values(z.output)) == ForestOutputs(given)
  {
    assert ForestTasks(z.queue) == multiset{} && ForestOutputs(z.queue) == multiset{};
  }

  /** If no task were submitted before the loop, the loop would exit at once with the whole
      queue: a positive number of first submissions is exactly what is needed. */
  lemma {:induction false} QueueDrainedIff<V>(given: seq<Task<V>>, howmany: nat, sched: seq<Event>, z: State<V>)
    requires AllWellBehaved(given)
    requires Run(Start(given, howmany), sched, z) && z.tasks == []
    ensures z.queue == [] <==> howmany > 0 || given == []
  {
    if howmany > 0 || given == [] {
      NoWorkLostOrDuplicated(given, howmany, sched, z);
    } else {
      assert Start(given, howmany) == Initial(given);
      assert sched == [];
    }
  }

  /** With no first submission a single queued task is never run. */
  lemma {:induction false} QueueWitness<V>(t: Task<V>)
    ensures var s := Start([t], 0); Run(s, [], s) && s.tasks == [] && s.queue == [t]
  {
  }

  // ----- progress

  /** A channel has something to deliver exactly while its task is running, so
      `next(isocket)` returns as long as the loop asks for a result. */
  lemma {:induction false} SomethingArrives<V>(s: State<V>, given: seq<Task<V>>)
    requires Inv(s, given)
    ensures forall i: nat :: i in s.tasks <==> i < |s.channels| && s.channels[i] != []
    ensures s.tasks != [] ==> exists i: nat :: i < |s.channels| && s.channels[i] != []
  {
    hide Order, Conservation, AllWellBehaved, Messages;
    forall i: nat ensures i in s.tasks <==> i < |s.channels| && s.channels[i] != [] {
      assert i < |s.channels| ==> (s.channels[i] == [] <==> i in s.finished);
    }
    if s.tasks != [] {
      assert s.tasks[0] in s.tasks;
      var i := s.tasks[0];
      assert i < |s.channels| && s.channels[i] != [];
    }
  }

  lemma {:induction false} Receivable<V>(s: State<V>, i: nat, given: seq<Task<V>>)
    requires Inv(s, given) && i < |s.channels| && s.channels[i] != []
    ensures Enabled(s, From(i)) && i in s.tasks
  {
    hide Order, Conservation;
  }

  lemma {:induction false} ForeignStep<V>(s: State<V>, sched: seq<Event>, m: State<V>)
    requires Run(s, sched, m) && m.tasks != []
    ensures Run(s, sched + [Foreign], m)
  {
    RunAppend(s, sched, m, Foreign);
  }

  lemma {:induction false} TaskNoGrows<V>(s: State<V>, i: nat)
    requires Enabled(s, From(i)) && Handle(s, From(i)).Some?
    ensures Handle(s, From(i)).value.taskNo >= s.taskNo
  {
  }

  /** A step yields the output it receives, and nothing else. */
  lemma {:induction false} OutputGrows<V>(s: State<V>, i: nat)
    requires Enabled(s, From(i)) && Handle(s, From(i)).Some?
    ensures Values(Handle(s, From(i)).value.output) ==
            Values(s.output) + (if s.channels[i][0].Output? then [s.channels[i][0].o] else [])
  {
  }

  ghost function ChannelsSize<V>(channels: seq<seq<Message<V>>>): nat {
    if channels == [] then 0 else MessagesSize(channels[0]) + ChannelsSize(channels[1..])
  }

  /** The number of results that may still arrive, at most. */
  ghost function Work<V>(s: State<V>): nat {
    ForestSize(s.queue) + ChannelsSize(s.channels)
  }

  lemma {:induction false} ChannelsSizeAppend<V>(a: seq<seq<Message<V>>>, c: seq<Message<V>>)
    ensures ChannelsSize(a + [c]) == ChannelsSize(a) + MessagesSize(c)
  {
    if a == [] {
      assert a + [c] == [c];
      assert [c][1..] == [];
    } else {
      assert (a + [c])[1..] == a[1..] + [c];
      ChannelsSizeAppend(a[1..], c);
    }
  }

  lemma {:induction false} ChannelsSizeUpdate<V>(a: seq<seq<Message<V>>>, i: nat, c: seq<Message<V>>)
    requires i < |a|
    ensures ChannelsSize(a[i := c]) + MessagesSize(a[i]) == ChannelsSize(a) + MessagesSize(c)
  {
    if i == 0 {
      assert a[i := c][1..] == a[1..];
    } else {
      assert a[i := c][1..] == a[1..][i - 1 := c];
      ChannelsSizeUpdate(a[1..], i - 1, c);
    }
  }

  lemma {:induction false} SubmitOneWork<V>(s: State<V>)
    ensures Work(SubmitOne(s)) <= Work(s)
  {
    if s.queue != [] {
      var t := s.queue[0];
      SizeOfMessages(t);
      ChannelsSizeAppend(s.channels, Messages(t));
    }
  }

  lemma {:induction false} StepWork<V>(s: State<V>, i: nat)
    requires Enabled(s, From(i)) && Handle(s, From(i)).Some?
    ensures Work(Handle(s, From(i)).value) < Work(s)
  {
    var a, left := Arrive(s, i), s.channels[i];
    ChannelsSizeUpdate(s.channels, i, left[1..]);
    match left[0]
    case TaskEnded =>
      SubmitOneWork(a.(finished := a.finished + {i}, tasks := Remove(a.tasks, i)));
    case Subtask(t) =>
      ForestAppend(s.queue, [t]);
      assert [t][1..] == [];
      assert ForestSize([t]) == Size(t) + ForestSize<V>([]);
      SubmitOneWork(a.(queue := a.queue + [t], spawned := a.spawned + [t]));
    case Output(o) =>
  }

  /** How many results of this job a run consumes. */
  ghost function Results(sched: seq<Event>): nat {
    if sched == [] then 0 else (if sched[0].From? then 1 else 0) + Results(sched[1..])
  }

  /** The loop terminates: however the subtasks multiply, a run consumes at most as
      many results as the given tasks allow. */
  lemma {:induction false} RunsAreBounded<V>(s: State<V>, sched: seq<Event>, z: State<V>)
    requires Run(s, sched, z)
    ensures Results(sched) + Work(z) <= Work(s)
    decreases |sched|
  {
    if sched != [] {
      if sched[0].From? {
        StepWork(s, sched[0].no);
      }
      RunsAreBounded(Handle(s, sched[0]).value, sched[1..], z);
    }
  }

  lemma {:induction false} RunAppend<V>(s: State<V>, sched: seq<Event>, m: State<V>, e: Event)
    requires Run(s, sched, m) && m.tasks != [] && Enabled(m, e) && Handle(m, e).Some?
    ensures Run(s, sched + [e], Handle(m, e).value)
    decreases |sched|
  {
    if sched == [] {
      assert [e][1..] == [];
    } else {
      assert (sched + [e])[1..] == sched[1..] + [e];
      RunAppend(Handle(s, sched[0]).value, sched[1..], m, e);
    }
  }

  lemma {:induction false} SubmitManyOutput<V>(s: State<V>, howmany: nat)
    ensures SubmitMany(s, howmany).output == s.output
    decreases howmany
  {
    if howmany > 0 {
      SubmitManyOutput(SubmitOne(s), howmany - 1);
    }
  }

  lemma {:induction false} IdleFacts<V>(s: State<V>, given: seq<Task<V>>)
    requires Inv(s, given)
    ensures |s.channels| == |s.inbox|
    ensures s.taskNo == 0 || s.tasks == [] ==> s.tasks == [] && s.queue == []
  {
    hide Delivery, Order, Conservation;
    FewNumbers(s.tasks, s.taskNo);
  }

  // ----- log_percent

  /** The percentage before it is made an integer. */
  function Ratio(done: int, total: nat): real
    requires total > 0
  {
    (done as real / total as real) * 100.0
  }

  function Percent<V>(s: State<V>, expectedOutputs: nat): int
    requires s.taskNo > 0
  {
    if expectedOutputs > 0 then
      Ratio(s.nOut, expectedOutputs).Floor
    else
      Ratio(s.taskNo - |s.tasks|, s.taskNo).Floor
  }

  lemma {:induction false} FewNumbers(xs: seq<nat>, n: nat)
    requires Distinct(xs) && forall x :: x in xs ==> x < n
    ensures |xs| <= n
    decreases n
  {
    if xs != [] {
      assert xs[0] in xs;
      if n - 1 in xs {
        RemoveFacts(xs, n - 1);
        FewNumbers(Remove(xs, n - 1), n - 1);
      } else {
        FewNumbers(xs, n - 1);
      }
    }
  }

  lemma {:induction false} RatioTimes(a: int, b: nat)
    requires b > 0
    ensures Ratio(a, b) * b as real == 100.0 * a as real
    ensures a == b ==> Ratio(a, b) == 100.0
  {
    var q := a as real / b as real;
    assert q * b as real == a as real;
    assert (q * 100.0) * b as real == 100.0 * (q * b as real);
  }

  lemma {:induction false} AsReals(a: int, b: nat)
    ensures 100 * a < 101 * b <==> 100.0 * a as real < 101.0 * b as real
  {
    assert (100 * a) as real == 100.0 * a as real && (101 * b) as real == 101.0 * b as real;
  }

  lemma {:induction false} FloorFacts(x: real)
    ensures x.Floor <= 100 <==> x < 101.0
    ensures x == 100.0 ==> x.Floor == 100
  {
  }

  /** A product that the solver need not look into. */
  function Scaled(x: real, b: nat): real {
    x * b as real
  }

  lemma {:induction false} ScaledOrder(x: real, y: real, b: nat)
    requires b > 0
    ensures x < y <==> Scaled(x, b) < Scaled(y, b)
  {
    ScaleOrder(x, y, b as real);
  }

  lemma {:induction false} ScaledRatio(a: int, b: nat)
    requires b > 0
    ensures Scaled(Ratio(a, b), b) == 100.0 * a as real
  {
    hide Ratio;
    RatioTimes(a, b);
  }

  lemma {:induction false} ScaledLimit(b: nat)
    ensures Scaled(101.0, b) == 101.0 * b as real
  {
  }

  lemma {:induction false} RatioOrder(a: int, b: nat)
    requires b > 0
    ensures Ratio(a, b) < 101.0 <==> 100 * a < 101 * b
  {
    hide Ratio, Scaled;
    ScaledOrder(Ratio(a, b), 101.0, b);
    ScaledRatio(a, b);
    ScaledLimit(b);
    AsReals(a, b);
  }

  lemma {:induction false} RatioBelow(a: int, b: nat)
    requires b > 0
    ensures Ratio(a, b).Floor <= 100 <==> 100 * a < 101 * b
    ensures a == b ==> Ratio(a, b).Floor == 100
  {
    hide Ratio;
    RatioOrder(a, b);
    RatioTimes(a, b);
    FloorFacts(Ratio(a, b));
  }

  /** At one moment: the percentage of the tasks never exceeds 100 and ends there; that of the
      outputs does not exceed it as long as fewer than 101% of the expected ones have arrived. */
  lemma {:induction false} PercentAt<V>(s: State<V>, expectedOutputs: nat, given: seq<Task<V>>)
    requires Inv(s, given) && s.taskNo > 0
    ensures Percent(s, expectedOutputs) <= 100 <==> expectedOutputs == 0 || 100 * s.nOut < 101 * expectedOutputs
    ensures expectedOutputs == 0 && s.tasks == [] ==> Percent(s, expectedOutputs) == 100
  {
    hide Delivery, Order, Conservation;
    FewNumbers(s.tasks, s.taskNo);
    if expectedOutputs > 0 {
      RatioBelow(s.nOut, expectedOutputs);
    } else {
      RatioBelow(s.taskNo - |s.tasks|, s.taskNo);
    }
  }

  /** The outputs yielded so far are among those of the given tasks, and all of them at the end. */
  lemma {:induction false} OutputsSoFar<V>(s: State<V>, given: seq<Task<V>>)
    requires Inv(s, given)
    ensures s.nOut <= |ForestOutputs(given)|
    ensures s.tasks == [] ==> s.nOut == |ForestOutputs(given)|
  {
    hide Order, Messages, TasksConserved, ForestOutputs, InFlight, AllWellBehaved;
    var yielded := multiset(Values(s.output));
    assert |yielded| == |Values(s.output)| == s.nOut;
    assert |yielded + InFlight(s.channels) + ForestOutputs(s.queue)| ==
      |yielded| + |InFlight(s.channels)| + |ForestOutputs(s.queue)|;
    if s.tasks == [] {
      AllDelivered(s, given);
    }
  }

  /** Every run can be continued up to the exit of the loop. */
  lemma {:induction false} Completes<V>(s: State<V>, given: seq<Task<V>>) returns (sched: seq<Event>, z: State<V>)
    requires Inv(s, given)
    ensures Run(s, sched, z) && z.tasks == []
    decreases Work(s)
  {
    hide Inv, Handle, Work;
    if s.tasks == [] {
      sched, z := [], s;
    } else {
      SomethingArrives(s, given);
      var i: nat :| i < |s.channels| && s.channels[i] != [];
      Receivable(s, i, given);
      StepSafe(s, From(i), given);
      StepWork(s, i);
      var rest;
      rest, z := Completes(Handle(s, From(i)).value, given);
      sched := [From(i)] + rest;
      assert sched[1..] == rest;
    }
  }

  lemma {:induction false} RunTaskNo<V>(s: State<V>, sched: seq<Event>, z: State<V>)
    requires Run(s, sched, z)
    ensures z.taskNo >= s.taskNo
    decreases |sched|
  {
    if sched != [] {
      if sched[0].From? {
        TaskNoGrows(s, sched[0].no);
      }
      RunTaskNo(Handle(s, sched[0]).value, sched[1..], z);
    }
  }

  lemma {:induction false} StartTaskNo<V>(s: State<V>, howmany: nat)
    requires s.queue != [] && howmany > 0
    ensures SubmitMany(s, howmany).taskNo > 0
  {
    SubmitManyTaskNo(SubmitOne(s), howmany - 1);
  }

  lemma {:induction false} SubmitManyTaskNo<V>(s: State<V>, howmany: nat)
    ensures SubmitMany(s, howmany).taskNo >= s.taskNo
    decreases howmany
  {
    if howmany > 0 {
      SubmitManyTaskNo(SubmitOne(s), howmany - 1);
    }
  }

  /** In a run the check never fails if fewer than 101% of the expected outputs are going to be
      produced; otherwise it fails at the exit at the latest. */
  lemma {:induction false} PercentOfRun<V>(
    given: seq<Task<V>>, howmany: nat, expectedOutputs: nat, sched: seq<Event>, z: State<V>)
    requires AllWellBehaved(given) && given != [] && howmany > 0 && expectedOutputs > 0
    requires Run(Start(given, howmany), sched, z)
    ensures z.taskNo > 0
    ensures 100 * |ForestOutputs(given)| < 101 * expectedOutputs ==> Percent(z, expectedOutputs) <= 100
    ensures z.tasks == [] ==>
      (Percent(z, expectedOutputs) <= 100 <==> 100 * |ForestOutputs(given)| < 101 * expectedOutputs)
  {
    hide Inv, Run, SubmitMany, Percent, ForestOutputs;
    StartTaskNo(Initial(given), howmany);
    RunTaskNo(Start(given, howmany), sched, z);
    StartInv(given, howmany);
    RunKeeps(Start(given, howmany), sched, z, given);
    PercentAt(z, expectedOutputs, given);
    OutputsSoFar(z, given);
  }

  /** The check of the percentage never fails, in no run and at no moment, if and only if the tasks
      and their subtasks produce fewer than 101% of the expected outputs. */
  lemma {:induction false} PercentIff<V>(given: seq<Task<V>>, howmany: nat, expectedOutputs: nat)
    requires AllWellBehaved(given) && given != [] && howmany > 0 && expectedOutputs > 0
    ensures (forall sched, z :: Run(Start(given, howmany), sched, z) ==>
      z.taskNo > 0 && Percent(z, expectedOutputs) <= 100) <==>
            100 * |ForestOutputs(given)| < 101 * expectedOutputs
  {
    hide Inv, Run, Percent, ForestOutputs, Start;
    forall sched, z | Run(Start(given, howmany), sched, z)
      ensures z.taskNo > 0
      ensures 100 * |ForestOutputs(given)| < 101 * expectedOutputs ==> Percent(z, expectedOutputs) <= 100
    {
      PercentOfRun(given, howmany, expectedOutputs, sched, z);
    }
    StartInv(given, howmany);
    var sched, z := Completes(Start(given, howmany), given);
    PercentOfRun(given, howmany, expectedOutputs, sched, z);
  }

  /** A generator of two outputs where one is expected: after both have arrived, and before the
      task has ended, the percentage is 200. */
  lemma {:induction false} PercentWitness<V>(v: V)
    ensures var t := Generator([Plain(v), Plain(v)], Exhausted);
      var s := Start([t], 1);
      exists z :: Run(s, [From(0), From(0)], z) && z.tasks == [0] && z.taskNo == 1 && Percent(z, 1) == 200
  {
    var t := Generator([Plain(v), Plain(v)], Exhausted);
    var out := Message<V>.Output(Value(v));
    assert [Plain(v), Plain(v)][1..] == [Plain(v)] && [Plain(v)][1..] == [];
    assert GeneratorMessages<V>([], Exhausted) == [TaskEnded];
    assert GeneratorMessages([Plain(v)], Exhausted) == [out] + [TaskEnded];
    assert Messages(t) == [out] + ([out] + [TaskEnded]);
    assert Messages(t) == [out, out, TaskEnded];
    var s := Start([t], 1);
    assert s == SubmitMany(SubmitOne(Initial([t])), 0);
    assert s.channels == [[out, out, TaskEnded]] && s.tasks == [0] && s.nOut == 0;
    var a := Handle(s, From(0)).value;
    assert a.channels == [[out, TaskEnded]] && a.tasks == [0] && a.nOut == 1;
    var z := Handle(a, From(0)).value;
    assert z.tasks == [0] && z.nOut == 2 && z.taskNo == 1;
    assert [From(0), From(0)][1..] == [From(0)] && [From(0)][1..] == [];
    assert Run(z, [], z) && Run(a, [From(0)], z) && Run(s, [From(0), From(0)], z);
  }
}

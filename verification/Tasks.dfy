/** Tasks and their messages. */
module Tasks {
  // The behaviour of a task function, and what `safely_call` pushes on the channel of the task.

  /** The payload of an ordinary result: a value, or a trapped exception. */
  datatype Outcome<+V> = Value(v: V) | Raised

  /** One value produced by a task function.
      Call       a tuple headed by a callable, which the master turns into a subtask;
      SendFails  a value on which `zsocket.send` raises, replaced by the exception;
      Unsendable a value on which building the `Result` itself raises (an empty
                 tuple, an object that cannot be pickled): nothing traps that. */
  datatype Yield<+V> = Plain(v: V) | Call(sub: Task<V>) | SendFails | Unsendable

  /** How a plain function ends. `Throw` is an exception that is trapped and sent; `Dies` is one
      that is not: it cannot be pickled, so that building its `Result` raises inside the
      handler, it is not an `Exception` at all (SystemExit, KeyboardInterrupt), or it is raised
      before the trapped call, while the arguments are unpickled. */
  datatype Return<+V> = Ret(y: Yield<V>) | Throw | StopIteration | Dies

  /** How a generator ends after what it has produced, with the same distinction. A generator
      function called with the wrong arguments is dying before it produces anything, since the
      call that makes the generator is not trapped. */
  datatype Ending = Exhausted | Raising | Dying

  /** A task as the master sees it from outside: everything it is going to do. The type
      ranges over all finite behaviours, so quantifying over tasks covers every outcome. */
  datatype Task<+V> =
    | Generator(produced: seq<Yield<V>>, ending: Ending)
    | Function(ret: Return<V>)

  datatype Message<+V> = Output(o: Outcome<V>) | Subtask(t: Task<V>) | TaskEnded

  function Encode<V>(y: Yield<V>): Message<V>
    requires !y.Unsendable?
  {
    match y
    case Plain(v) => Output(Value(v))
    case Call(t) => Subtask(t)
    case SendFails => Output(Raised)
  }

  function EndMessages<V>(ending: Ending): seq<Message<V>> {
    match ending
    case Exhausted => [TaskEnded]
    case Raising => [Output(Raised), TaskEnded]
    case Dying => []
  }

  /** What is sent while iterating on a generator that has still to produce `ys`. */
  function GeneratorMessages<V>(ys: seq<Yield<V>>, ending: Ending): seq<Message<V>> {
    if ys == [] then
      EndMessages(ending)
    else if ys[0].Unsendable? then
      []
    else
      [Encode(ys[0])] + GeneratorMessages(ys[1..], ending)
  }

  /** Everything a task sends, in the order of its channel. */
  function Messages<V>(t: Task<V>): seq<Message<V>> {
    match t
    case Generator(ys, ending) => GeneratorMessages(ys, ending)
    case Function(Ret(y)) => if y.Unsendable? then [] else [Encode(y), TaskEnded]
    case Function(Throw) => [Output(Raised), TaskEnded]
    case Function(StopIteration) => [TaskEnded, TaskEnded]
    case Function(Dies) => []
  }

  /** Written out: one message for each of the first n yields, in their order, then the end. */
  ghost predicate GeneratorSends<V>(ys: seq<Yield<V>>, ending: Ending, n: nat, ms: seq<Message<V>>) {
    && n <= |ys| && n <= |ms|
    && (forall i :: 0 <= i < n && ys[i].Plain? ==> ms[i] == Output(Value(ys[i].v)))
    && (forall i :: 0 <= i < n && ys[i].Call? ==> ms[i] == Subtask(ys[i].sub))
    && (forall i :: 0 <= i < n && ys[i].SendFails? ==> ms[i] == Output(Raised))
    && (forall i :: 0 <= i < n ==> !ys[i].Unsendable?)
    && (n < |ys| ==> ys[n].Unsendable?)
    && ms[n..] == (if n < |ys| || ending.Dying? then []
                   else if ending.Raising? then [Output(Raised), TaskEnded]
                   else [TaskEnded])
  }

  /** What a task sends, case by case. */
  ghost predicate Sends<V>(t: Task<V>, ms: seq<Message<V>>) {
    match t
    case Generator(ys, ending) => exists n: nat :: GeneratorSends(ys, ending, n, ms)
    case Function(Ret(Plain(v))) => ms == [Output(Value(v)), TaskEnded]
    case Function(Ret(Call(sub))) => ms == [Subtask(sub), TaskEnded]
    case Function(Ret(SendFails)) => ms == [Output(Raised), TaskEnded]
    case Function(Ret(Unsendable)) => ms == []
    case Function(Throw) => ms == [Output(Raised), TaskEnded]
    case Function(StopIteration) => ms == [TaskEnded, TaskEnded]
    case Function(Dies) => ms == []
  }

  lemma {:induction false} GeneratorSendsAll<V>(ys: seq<Yield<V>>, ending: Ending) returns (n: nat)
    ensures GeneratorSends(ys, ending, n, GeneratorMessages(ys, ending))
  {
    if ys == [] || ys[0].Unsendable? {
      n := 0;
    } else {
      n := GeneratorSendsAll(ys[1..], ending);
      GeneratorSendsFirst(ys, ending, n, GeneratorMessages(ys[1..], ending));
      n := n + 1;
    }
  }

  lemma {:induction false} GeneratorSendsFirst<V>(ys: seq<Yield<V>>, ending: Ending, n: nat, tail: seq<Message<V>>)
    requires ys != [] && !ys[0].Unsendable? && GeneratorSends(ys[1..], ending, n, tail)
    ensures GeneratorSends(ys, ending, n + 1, [Encode(ys[0])] + tail)
  {
    var ms := [Encode(ys[0])] + tail;
    assert ms[n + 1..] == tail[n..];
    assert forall i :: 0 < i < n + 1 ==> ys[i] == ys[1..][i - 1] && ms[i] == tail[i - 1];
  }

  /** The messages are those: each yield is sent as it is produced. */
  lemma {:induction false} MessagesAreSent<V>(t: Task<V>)
    ensures Sends(t, Messages(t))
  {
    if t.Generator? {
      var n := GeneratorSendsAll(t.produced, t.ending);
    }
  }

  lemma {:induction false} NextMessage<V>(ys: seq<Yield<V>>, i: nat, ending: Ending)
    requires i <= |ys|
    ensures GeneratorMessages(ys[i..], ending) ==
      if i == |ys| then EndMessages(ending)
      else if ys[i].Unsendable? then []
      else [Encode(ys[i])] + GeneratorMessages(ys[i + 1..], ending)
  {
    assert i < |ys| ==> ys[i..][1..] == ys[i + 1..];
  }

  /** What is still to be sent. */
  ghost predicate Left<V>(all: seq<Message<V>>, sent: seq<Message<V>>, rest: seq<Message<V>>) {
    all == sent + rest
  }

  lemma {:induction false} LeftNext<V>(all: seq<Message<V>>, sent: seq<Message<V>>, rest: seq<Message<V>>)
    ensures Left(all, [], all)
    ensures Left(all, sent, rest) && rest == [] ==> all == sent
    ensures rest != [] && Left(all, sent, rest) ==> Left(all, sent + [rest[0]], rest[1..])
  {
  }

  /** The loop on a generator. One that raised is exhausted, so the `next` after the exception is a
      StopIteration and still ends the task. */
  method RunGenerator<V>(ys: seq<Yield<V>>, ending: Ending) returns (sent: seq<Message<V>>)
    ensures sent == GeneratorMessages(ys, ending)
  {
    hide GeneratorMessages, Left;
    sent := [];
    ghost var all := GeneratorMessages(ys, ending);
    var i, left := 0, ending;
    assert ys[0..] == ys;
    LeftNext(all, [], []);
    while true
      invariant 0 <= i <= |ys|
      invariant left == ending || (i == |ys| && ending.Raising? && left.Exhausted?)
      invariant Left(all, sent, GeneratorMessages(ys[i..], left))
      decreases |ys| - i, left.Raising?
    {
      NextMessage(ys, i, left);
      LeftNext(all, sent, GeneratorMessages(ys[i..], left));
      if i < |ys| {
        if ys[i].Unsendable? {
          return;
        }
        sent := sent + [Encode(ys[i])];
        i := i + 1;
      } else if left.Raising? {
        sent := sent + [Output(Raised)];
        left := Exhausted;
        NextMessage(ys, i, left);
      } else if left.Dying? {
        return;
      } else {
        sent := sent + [TaskEnded];
        LeftNext(all, sent, []);
        return;
      }
    }
  }

  /** The worker. */
  method SafelyCall<V>(t: Task<V>) returns (sent: seq<Message<V>>)
    ensures sent == Messages(t) && Sends(t, sent)
  {
    hide Sends, GeneratorMessages;
    MessagesAreSent(t);
    sent := [];
    match t {
      case Generator(ys, ending) =>
        sent := RunGenerator(ys, ending);
      case Function(Ret(y)) =>
        if !y.Unsendable? {
          sent := [Encode(y), TaskEnded];
        }
      case Function(Throw) =>
        sent := [Output(Raised), TaskEnded];
      case Function(StopIteration) =>
        sent := [TaskEnded];             // Result.new already says TASK_ENDED
        sent := sent + [TaskEnded];      // and the unconditional end follows
      case Function(Dies) =>
    }
  }

  /** Exactly one TASK_ENDED, and nothing after it. */
  ghost predicate EndsOnce<V>(ms: seq<Message<V>>) {
    && ms != []
    && ms[|ms| - 1].TaskEnded?
    && forall i :: 0 <= i < |ms| - 1 ==> !ms[i].TaskEnded?
  }

  /** What a task must avoid to end exactly once; raising an exception that can be sent is
      not on the list. */
  ghost predicate WellBehaved<V>(t: Task<V>) {
    match t
    case Generator(ys, ending) => !ending.Dying? && forall i :: 0 <= i < |ys| ==> !ys[i].Unsendable?
    case Function(Ret(y)) => !y.Unsendable?
    case Function(Throw) => true
    case Function(StopIteration) => false
    case Function(Dies) => false
  }

  /** A task ends exactly once, as its last message, if and only if it never produces an
      unsendable value, never raises an exception that cannot be trapped and sent, and is not
      a plain function raising StopIteration. */
  lemma {:induction false} EndsOnceIff<V>(t: Task<V>)
    ensures EndsOnce(Messages(t)) <==> WellBehaved(t)
  {
    match t
    case Generator(ys, ending) => GeneratorEndsOnceIff(ys, ending);
    case Function(Ret(y)) =>
    case Function(Throw) =>
    case Function(StopIteration) => assert Messages(t)[0].TaskEnded?;
    case Function(Dies) =>
  }

  lemma {:induction false} GeneratorEndsOnceIff<V>(ys: seq<Yield<V>>, ending: Ending)
    ensures EndsOnce(GeneratorMessages(ys, ending)) <==>
            !ending.Dying? && forall i :: 0 <= i < |ys| ==> !ys[i].Unsendable?
  {
    if ys == [] {
      assert EndMessages<V>(Raising)[0].Output?;
    } else if !ys[0].Unsendable? {
      var tail := GeneratorMessages(ys[1..], ending);
      GeneratorEndsOnceIff(ys[1..], ending);
      assert forall i :: 0 <= i < |ys| - 1 ==> ys[1..][i] == ys[i + 1];
      assert forall i :: 1 <= i < |ys| ==> ys[i] == ys[1..][i - 1];
      EndsOnceCons(Encode(ys[0]), tail);
      hide EndsOnce;
    }
  }

  lemma {:induction false} EndsOnceCons<V>(m: Message<V>, tail: seq<Message<V>>)
    requires !m.TaskEnded?
    ensures EndsOnce([m] + tail) <==> EndsOnce(tail)
  {
    var ms := [m] + tail;
    assert forall i :: 1 <= i < |ms| ==> ms[i] == tail[i - 1];
    assert forall i :: 0 <= i < |tail| ==> tail[i] == ms[i + 1];
  }

  /** Four tasks that do not end once: a function raising an exception that cannot be pickled,
      a generator doing the same after an output, a function returning an empty tuple, and
      a function raising StopIteration, which ends twice. */
  lemma {:induction false} EndsOnceWitness<V>(v: V)
    ensures Messages<V>(Function(Dies)) == []
    ensures Messages(Generator([Plain(v)], Dying)) == [Output(Value(v))]
    ensures Messages<V>(Function(Ret(Unsendable))) == []
    ensures Messages<V>(Function(StopIteration)) == [TaskEnded, TaskEnded]
    ensures !EndsOnce(Messages(Generator([Plain(v)], Dying))) && !EndsOnce(Messages<V>(Function(StopIteration)))
  {
    assert [Plain(v)][1..] == [];
    assert GeneratorMessages<V>([], Dying) == [];
    assert Messages<V>(Function(StopIteration))[0].TaskEnded?;
  }

  // ----- the work below a task: it and all the subtasks it will ever spawn

  ghost predicate WellBehavedTree<V>(t: Task<V>) {
    && WellBehaved(t)
    && match t
       case Generator(ys, _) => forall y :: y in ys && y.Call? ==> WellBehavedTree(y.sub)
       case Function(Ret(Call(sub))) => WellBehavedTree(sub)
       case _ => true
  }

  /** The subtasks announced by a list of messages, in order. */
  function Subs<V>(ms: seq<Message<V>>): seq<Task<V>> {
    if ms == [] then []
    else if ms[0].Subtask? then [ms[0].t] + Subs(ms[1..])
    else Subs(ms[1..])
  }

  /** The ordinary outputs in a list of messages, in order. */
  function Outs<V>(ms: seq<Message<V>>): seq<Outcome<V>> {
    if ms == [] then []
    else if ms[0].Output? then [ms[0].o] + Outs(ms[1..])
    else Outs(ms[1..])
  }

  lemma {:induction false} OutsAppend<V>(a: seq<Message<V>>, b: seq<Message<V>>)
    ensures Outs(a + b) == Outs(a) + Outs(b)
    ensures Subs(a + b) == Subs(a) + Subs(b)
  {
    if a == [] {
      assert a + b == b;
    } else {
      assert (a + b)[1..] == a[1..] + b;
      OutsAppend(a[1..], b);
    }
  }

  // ----- the outputs of a task, yield by yield

  /** How many of the first k yields are not subtasks. */
  ghost function Ordinals<V>(ys: seq<Yield<V>>, k: nat): nat
    requires k <= |ys|
  {
    if k == 0 then 0 else Ordinals(ys, k - 1) + if ys[k - 1].Call? then 0 else 1
  }

  /** The outputs of a well-behaved task are the values of its own yields, in their order, with an
      exception for each that could not be sent and for the one that ends it. */
  ghost predicate Yielded<V>(t: Task<V>, outs: seq<Outcome<V>>) {
    match t
    case Generator(ys, ending) =>
      && |outs| == Ordinals(ys, |ys|) + (if ending.Raising? then 1 else 0)
      && (ending.Raising? ==> outs[|outs| - 1] == Raised)
      && (forall k :: 0 <= k < |ys| && ys[k].Plain? ==>
           Ordinals(ys, k) < |outs| && outs[Ordinals(ys, k)] == Value(ys[k].v))
      && (forall k :: 0 <= k < |ys| && ys[k].SendFails? ==>
           Ordinals(ys, k) < |outs| && outs[Ordinals(ys, k)] == Raised)
    case Function(Ret(Plain(v))) => outs == [Value(v)]
    case Function(Ret(Call(_))) => outs == []
    case Function(_) => outs == [Raised]
  }

  lemma {:induction false} OutsAt<V>(ms: seq<Message<V>>, i: nat)
    requires i < |ms|
    ensures |Outs(ms)| >= |Outs(ms[..i + 1])| == |Outs(ms[..i])| + if ms[i].Output? then 1 else 0
    ensures ms[i].Output? ==> Outs(ms)[|Outs(ms[..i])|] == ms[i].o
  {
    assert ms == ms[..i + 1] + ms[i + 1..] && ms[..i + 1] == ms[..i] + [ms[i]];
    OutsAppend(ms[..i + 1], ms[i + 1..]);
    OutsAppend(ms[..i], [ms[i]]);
    assert [ms[i]][1..] == [];
  }

  lemma {:induction false} OrdinalsAre<V>(ys: seq<Yield<V>>, ending: Ending, ms: seq<Message<V>>, k: nat)
    requires GeneratorSends(ys, ending, |ys|, ms) && k <= |ys|
    ensures |Outs(ms[..k])| == Ordinals(ys, k)
  {
    if k > 0 {
      OrdinalsAre(ys, ending, ms, k - 1);
      OutsAt(ms, k - 1);
      assert ms[k - 1].Output? <==> !ys[k - 1].Call?;
    }
  }

  lemma {:induction false} GeneratorYielded<V>(ys: seq<Yield<V>>, ending: Ending, ms: seq<Message<V>>)
    requires GeneratorSends(ys, ending, |ys|, ms) && !ending.Dying?
    ensures Yielded(Generator(ys, ending), Outs(ms))
  {
    hide Outs, Ordinals;
    var n := |ys|;
    OrdinalsAre(ys, ending, ms, n);
    assert ms == ms[..n] + ms[n..];
    OutsAppend(ms[..n], ms[n..]);
    EndOuts<V>();
    forall k | 0 <= k < n && !ys[k].Call?
      ensures Ordinals(ys, k) < |Outs(ms)| && ms[k].Output? && Outs(ms)[Ordinals(ys, k)] == ms[k].o
    {
      OrdinalsAre(ys, ending, ms, k);
      OutsAt(ms, k);
    }
  }

  lemma {:induction false} EndOuts<V>()
    ensures Outs<V>([TaskEnded]) == [] && Outs<V>([Output(Raised), TaskEnded]) == [Raised]
  {
    assert [Message<V>.TaskEnded][1..] == [];
    assert [Message<V>.Output(Raised), TaskEnded][1..] == [TaskEnded];
  }

  lemma {:induction false} OneOut<V>(m: Message<V>)
    ensures Outs([m, TaskEnded]) == if m.Output? then [m.o] else []
  {
    assert [m, TaskEnded][1..] == [TaskEnded];
    EndOuts<V>();
  }

  lemma {:induction false} OutsAreYielded<V>(t: Task<V>)
    requires WellBehaved(t)
    ensures Yielded(t, Outs(Messages(t)))
  {
    hide Outs;
    match t
    case Generator(ys, ending) =>
      var n := GeneratorSendsAll(ys, ending);
      GeneratorYielded(ys, ending, GeneratorMessages(ys, ending));
    case Function(Ret(y)) => OneOut(Encode(y));
    case Function(Throw) => OneOut<V>(Output(Raised));
  }

  lemma {:induction false} GeneratorSubsWellBehaved<V>(ys: seq<Yield<V>>, ending: Ending)
    requires forall y :: y in ys && y.Call? ==> WellBehavedTree(y.sub)
    ensures forall m :: m in GeneratorMessages(ys, ending) && m.Subtask? ==> WellBehavedTree(m.t)
  {
    if ys != [] && !ys[0].Unsendable? {
      GeneratorSubsWellBehaved(ys[1..], ending);
      assert ys[0] in ys;
    }
  }

  lemma {:induction false} SubsWellBehaved<V>(t: Task<V>)
    requires WellBehavedTree(t)
    ensures forall m :: m in Messages(t) && m.Subtask? ==> WellBehavedTree(m.t)
  {
    match t
    case Generator(ys, ending) => GeneratorSubsWellBehaved(ys, ending);
    case Function(_) =>
  }

  /** A bound on the number of messages of a task and of its subtasks. */
  ghost function Size<V>(t: Task<V>): nat
    decreases t, 1
  {
    match t
    case Generator(ys, _) => 3 + YieldsSize(ys)
    case Function(Ret(Call(sub))) => 4 + Size(sub)
    case Function(_) => 3
  }

  ghost function YieldsSize<V>(ys: seq<Yield<V>>): nat
    decreases ys, 0
  {
    if ys == [] then 0
    else YieldSize(ys[0]) + YieldsSize(ys[1..])
  }

  ghost function YieldSize<V>(y: Yield<V>): nat
    decreases y, 0
  {
    match y case Call(sub) => 1 + Size(sub) case _ => 1
  }

  ghost function MessageSize<V>(m: Message<V>): nat {
    match m case Subtask(t) => 1 + Size(t) case _ => 1
  }

  ghost function MessagesSize<V>(ms: seq<Message<V>>): nat {
    if ms == [] then 0 else MessageSize(ms[0]) + MessagesSize(ms[1..])
  }

  lemma {:induction false} GeneratorSize<V>(ys: seq<Yield<V>>, ending: Ending)
    ensures MessagesSize(GeneratorMessages(ys, ending)) <= 2 + YieldsSize(ys)
  {
    if ys == [] {
      assert [Message<V>.Output(Raised), TaskEnded][1..] == [TaskEnded];
      assert MessagesSize([Message<V>.TaskEnded]) == 1;
    } else if !ys[0].Unsendable? {
      GeneratorSize(ys[1..], ending);
      var ms := GeneratorMessages(ys, ending);
      assert ms[1..] == GeneratorMessages(ys[1..], ending);
    }
  }

  lemma {:induction false} PairSize<V>(m: Message<V>)
    ensures MessagesSize([m, TaskEnded]) == MessageSize(m) + 1
  {
    var ms := [m, TaskEnded];
    assert ms[1..] == [TaskEnded];
    assert MessagesSize(ms[1..]) == MessageSize(ms[1..][0]) + MessagesSize(ms[1..][1..]);
  }

  lemma {:induction false} SizeOfMessages<V>(t: Task<V>)
    ensures MessagesSize(Messages(t)) < Size(t)
  {
    match t
    case Generator(ys, ending) => GeneratorSize(ys, ending);
    case Function(Ret(y)) =>
      if !y.Unsendable? {
        PairSize(Encode(y));
        assert y.Call? ==> Size(t) == 4 + Size(y.sub);
      }
    case Function(Throw) => PairSize(Message<V>.Output(Raised));
    case Function(StopIteration) => PairSize(Message<V>.TaskEnded);
    case Function(Dies) =>
  }

  /** Every output that a list of messages stands for, those of the subtasks included. */
  ghost function OutputsOf<V>(ms: seq<Message<V>>): multiset<Outcome<V>>
    decreases MessagesSize(ms)
  {
    if ms == [] then multiset{}
    else match ms[0]
      case Output(o) => multiset{o} + OutputsOf(ms[1..])
      case Subtask(t) => SizeOfMessages(t); OutputsOf(Messages(t)) + OutputsOf(ms[1..])
      case TaskEnded => OutputsOf(ms[1..])
  }

  /** Every task that a list of messages stands for, at any depth. */
  ghost function TasksOf<V>(ms: seq<Message<V>>): multiset<Task<V>>
    decreases MessagesSize(ms)
  {
    if ms == [] then multiset{}
    else match ms[0]
      case Subtask(t) => SizeOfMessages(t); multiset{t} + TasksOf(Messages(t)) + TasksOf(ms[1..])
      case _ => TasksOf(ms[1..])
  }

  /** All the outputs of some tasks and of their subtasks. */
  ghost function ForestOutputs<V>(ts: seq<Task<V>>): multiset<Outcome<V>> {
    if ts == [] then multiset{} else OutputsOf(Messages(ts[0])) + ForestOutputs(ts[1..])
  }

  /** Some tasks together with all their subtasks. */
  ghost function ForestTasks<V>(ts: seq<Task<V>>): multiset<Task<V>> {
    if ts == [] then multiset{}
    else multiset{ts[0]} + TasksOf(Messages(ts[0])) + ForestTasks(ts[1..])
  }

  ghost function ForestSize<V>(ts: seq<Task<V>>): nat {
    if ts == [] then 0 else Size(ts[0]) + ForestSize(ts[1..])
  }

  lemma {:induction false} ForestAppend<V>(a: seq<Task<V>>, b: seq<Task<V>>)
    ensures ForestOutputs(a + b) == ForestOutputs(a) + ForestOutputs(b)
    ensures ForestTasks(a + b) == ForestTasks(a) + ForestTasks(b)
    ensures ForestSize(a + b) == ForestSize(a) + ForestSize(b)
  {
    hide OutputsOf, TasksOf, Messages, Size;
    if a == [] {
      assert a + b == b;
    } else {
      assert (a + b)[1..] == a[1..] + b;
      ForestAppend(a[1..], b);
    }
  }
}

/** The `Starmap` object: the master side of the protocol, updated in place. */
module Starmap {
  import opened Basics
  import opened Tasks
  import P = Protocol

  class Starmap<V> {
    const ct: nat                        // how many tasks are submitted before reading results
    const expectedOutputs: nat           // 0 when unknown
    var taskQueue: seq<Task<V>>
    var tasks: seq<nat>
    var taskNo: nat
    var nOut: nat
    var wire: seq<seq<Message<V>>>       // the network: by task number, what is still to be read

    // the history of the object
    ghost var finished: set<nat>
    ghost var inbox: seq<seq<Message<V>>>
    ghost var submitted: seq<Task<V>>
    ghost var spawned: seq<Task<V>>
    ghost var output: seq<(nat, Outcome<V>)>

    ghost function Abs(): P.State<V>
      reads this
    {
      P.State(taskQueue, tasks, taskNo, finished, nOut, wire, inbox, submitted, spawned, output)
    }

    constructor (ct: nat, expectedOutputs: nat)
      ensures Abs() == P.Initial([])
      ensures this.ct == ct && this.expectedOutputs == expectedOutputs
    {
      this.ct, this.expectedOutputs := ct, expectedOutputs;
      taskQueue, tasks, taskNo, nOut, wire := [], [], 0, 0, [];
      finished, inbox, submitted, spawned, output := {}, [], [], [], [];
    }

    method Submit(t: Task<V>)
      modifies this
      ensures Abs() == P.Submit(old(Abs()), t)
    {
      var sent := SafelyCall(t);
      wire := wire + [sent];
      inbox, submitted := inbox + [[]], submitted + [t];
      tasks := tasks + [taskNo];
      taskNo := taskNo + 1;
    }

    method SubmitMany(howmany: nat)
      modifies this
      ensures Abs() == P.SubmitMany(old(Abs()), howmany)
    {
      var n := 0;
      while n < howmany
        invariant 0 <= n <= howmany
        invariant P.SubmitMany(Abs(), howmany - n) == P.SubmitMany(old(Abs()), howmany)
      {
        if taskQueue != [] {
          var t := taskQueue[0];
          taskQueue := taskQueue[1..];
          Submit(t);
        }
        n := n + 1;
      }
    }

    /** Lazy arguments are submitted at once, the others are queued. */
    method SubmitAll(args: seq<Task<V>>, isLazy: bool)
      requires taskQueue == []
      modifies this
      ensures Abs() == P.SubmitMany(old(Abs()).(queue := args), if isLazy then |args| else 0)
    {
      if isLazy {
        ghost var start := Abs().(queue := args);
        var n := 0;
        while n < |args|
          invariant 0 <= n <= |args|
          invariant taskQueue == []
          invariant P.SubmitMany(Abs().(queue := args[n..]), |args| - n) == P.SubmitMany(start, |args|)
        {
          Submit(args[n]);
          n := n + 1;
        }
      } else {
        taskQueue := args;
      }
    }

    /** The percentage of the progress report; `ok` is false when its sanity check fails. */
    method LogPercent() returns (percent: int, ok: bool)
      requires taskNo > 0
      ensures percent == P.Percent(Abs(), expectedOutputs) && (ok <==> percent <= 100)
    {
      var done := taskNo - |tasks|;
      percent := if expectedOutputs > 0 then ((nOut as real / expectedOutputs as real) * 100.0).Floor
                 else ((done as real / taskNo as real) * 100.0).Floor;
      ok := percent <= 100;
    }

    /** One iteration of the loop, for the next result of task i. */
    method Receive(i: nat) returns (res: Message<V>)
      requires P.Enabled(Abs(), P.From(i)) && (wire[i][0].TaskEnded? ==> i in tasks)
      modifies this
      ensures res == old(wire[i][0])
      ensures P.Handle(old(Abs()), P.From(i)) == Some(Abs())
    {
      res := wire[i][0];
      wire, inbox := wire[i := wire[i][1..]], inbox[i := inbox[i] + [res]];
      match res {
        case TaskEnded =>
          finished := finished + {i};
          tasks := P.Remove(tasks, i);
          ghost var b := Abs();
          SubmitMany(1);
          assert Abs() == P.SubmitMany(P.SubmitOne(b), 0);
        case Subtask(t) =>
          taskQueue, spawned := taskQueue + [t], spawned + [t];
          ghost var b := Abs();
          SubmitMany(1);
          assert Abs() == P.SubmitMany(P.SubmitOne(b), 0);
        case Output(o) =>
          nOut := nOut + 1;
          output := output + [(i, o)];
      }
    }

    /** The loop over the results. Which channel delivers next is not determined; `stale`
        results of other jobs may show up at any moment. `ok` is false when the sanity check
        of `log_percent` raised: this depends only on how many outputs there are in all. */
    method Loop(stale: nat, ghost given: seq<Task<V>>)
      returns (results: seq<Outcome<V>>, ok: bool, ghost sched: seq<P.Event>)
      requires P.Core(Abs(), given) && output == []
      requires ct > 0
      modifies this
      ensures P.Run(P.SubmitMany(old(Abs()), ct), sched, Abs())
      ensures results == P.Values(output)
      ensures ok ==> tasks == [] && taskQueue == [] && P.EveryTaskEndedOnce(Abs(), given)
      ensures ok ==> multiset(results) == ForestOutputs(given) && multiset(submitted) == ForestTasks(given)
      ensures ok ==> forall i :: 0 <= i < taskNo ==> Yielded(submitted[i], P.OutputsFrom(output, i))
      ensures ok <==> expectedOutputs == 0 || 100 * |ForestOutputs(given)| < 101 * expectedOutputs
    {
      hide P.Core, P.EveryTaskEndedOnce, P.Handle, P.SubmitMany, P.Percent, P.Work, ForestOutputs, Yielded,
           P.OutputsFrom;
      results, ok, sched := [], true, [];
      SubmitMany(ct);
      P.SubmitManyKeeps(old(Abs()), ct, given);
      ghost var start := Abs();
      P.SubmitManyOutput(old(Abs()), ct);
      if taskNo > 0 {
        var left, n := stale, 0;
        while tasks != []
          invariant P.Inv(Abs(), given) && taskNo > 0
          invariant P.Run(start, sched, Abs())
          invariant results == P.Values(output)
          invariant ok
          decreases P.Work(Abs()) + left
        {
          P.PercentAt(Abs(), expectedOutputs, given);
          P.OutputsSoFar(Abs(), given);
          n, ok := LogPercent();
          if !ok {
            return;
          }
          ghost var before := Abs();
          var foreign: bool := *;
          if foreign && left > 0 {
            P.ForeignStep(start, sched, before);
            left, sched := left - 1, sched + [P.Foreign];
          } else {
            P.SomethingArrives(before, given);
            var i: nat :| i < |wire| && wire[i] != [];
            P.Receivable(before, i, given);
            P.StepSafe(before, P.From(i), given);
            P.StepWork(before, i);
            P.RunAppend(start, sched, before, P.From(i));
            var res := Receive(i);
            P.OutputGrows(before, i);
            P.TaskNoGrows(before, i);
            if res.Output? {
              results := results + [res.o];
            }
            sched := sched + [P.From(i)];
          }
        }
        P.PercentAt(Abs(), expectedOutputs, given);
        P.OutputsSoFar(Abs(), given);
        n, ok := LogPercent();
      }
      if ok {
        P.IdleFacts(Abs(), given);
        P.ChannelsRead(Abs(), given);
        P.AllDelivered(Abs(), given);
      }
    }
  }
}

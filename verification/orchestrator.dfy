/** The stage sequencer of backend/app/workflow/workflow.go: `Workflow.Run`
    walks the configured stage names in order, resolves each one to a task
    by name, and dispatches to the callback registered under the task's
    `Func`, threading values through the `Result` map. */
module Orchestrator {
  import opened Wrappers
  import Lookup

  /** The fields of a configured task that the sequencer reads. */
  datatype Task = Task(name: string, func: string, store: string)

  /** Go's zero value of the task record. */
  const ZeroTask := Task("", "", "")

  /** The part of the configuration the sequencer walks. */
  datatype Config = Config(stages: seq<string>, tasks: seq<Task>)

  /** `getTask`: the first task in list order named `name`, or the zero
      task when none is. */
  function GetTask(tasks: seq<Task>, name: string): Task
  {
    Lookup.FirstOr(tasks, (u: Task) => u.name == name, ZeroTask)
  }

  /** The task found is the first one named `name`; with no such task it is
      the zero task. */
  lemma GetTaskFirstMatch(tasks: seq<Task>, name: string)
    ensures var t := GetTask(tasks, name);
      && (forall i :: 0 <= i < |tasks| && tasks[i].name == name && (forall j :: 0 <= j < i ==> tasks[j].name != name) ==> t == tasks[i])
      && ((forall i :: 0 <= i < |tasks| ==> tasks[i].name != name) ==> t == ZeroTask)
  {
    Lookup.FirstOrFinds(tasks, (u: Task) => u.name == name, ZeroTask);
  }

  /** Reading a Go map: an absent key reads as nil. */
  function Get<V>(res: map<string, Option<V>>, key: string): Option<V>
  {
    if key in res then res[key] else None
  }

  /** What one stage did. */
  datatype StageOutcome<V> =
    | Unregistered(task: Task)          // no callback under task.func: nothing happens
    | Deferred(task: Task, stored: V)   // Result[task.store] is non-nil: nothing is called
    | Invoked(task: Task)               // the callback is called once, with the task

  /** The branch a stage takes for task `t` given the current results: no
      callback registered under `Func` means nothing happens; a non-nil
      stored dependency means nothing is called; otherwise the callback is
      called. */
  function Classify<V, C>(res: map<string, Option<V>>, callbacks: map<string, C>, t: Task): StageOutcome<V>
  {
    if t.func !in callbacks then Unregistered(t)
    else match Get(res, t.store)
      case Some(v) => Deferred(t, v)
      case None => Invoked(t)
  }

  /** Exactly one branch is taken, for the task given, and a deferred stage
      carries the stored value it found. */
  lemma ClassifyCases<V, C>(res: map<string, Option<V>>, callbacks: map<string, C>, t: Task)
    ensures var o := Classify(res, callbacks, t);
      && o.task == t
      && (o.Unregistered? <==> t.func !in callbacks)
      && (o.Deferred? <==> t.func in callbacks && Get(res, t.store).Some?)
      && (o.Deferred? ==> Get(res, t.store) == Some(o.stored))
      && (o.Invoked? <==> t.func in callbacks && Get(res, t.store) == None)
  {
  }

  /** The results after a stage with outcome `o`: only an invoked stage
      writes, and it writes nil under its task's name (the package variable
      it stores is never assigned). */
  function ApplyStage<V>(res: map<string, Option<V>>, o: StageOutcome<V>): map<string, Option<V>>
  {
    if o.Invoked? then res[o.task.name := None] else res
  }

  /** Only an invoked stage changes the results, by setting its task's name
      to nil; every other entry stays. */
  lemma ApplyStageEffect<V>(res: map<string, Option<V>>, o: StageOutcome<V>)
    ensures var r := ApplyStage(res, o);
      && (!o.Invoked? ==> r == res)
      && (o.Invoked? ==> o.task.name in r && r[o.task.name] == None)
      && r.Keys <= res.Keys + {o.task.name}
      && (forall k :: k in res && k != o.task.name ==> k in r && r[k] == res[k])
  {
  }

  /** The results after running `stages` in order, starting from `res`. */
  function ResultAfter<V, C>(res: map<string, Option<V>>, callbacks: map<string, C>,
                             tasks: seq<Task>, stages: seq<string>): map<string, Option<V>>
    decreases |stages|
  {
    if stages == [] then res
    else
      var before := ResultAfter(res, callbacks, tasks, stages[..|stages| - 1]);
      ApplyStage(before, Classify(before, callbacks, GetTask(tasks, stages[|stages| - 1])))
  }

  /** The outcome of every stage of a run, in stage order. */
  function Trace<V, C>(res: map<string, Option<V>>, callbacks: map<string, C>,
                       tasks: seq<Task>, stages: seq<string>): seq<StageOutcome<V>>
    decreases |stages|
  {
    if stages == [] then []
    else
      var prev := stages[..|stages| - 1];
      Trace(res, callbacks, tasks, prev)
        + [Classify(ResultAfter(res, callbacks, tasks, prev), callbacks, GetTask(tasks, stages[|stages| - 1]))]
  }

  /** Running one more stage: the stage is classified against the results
      the earlier stages left, and its outcome is applied to them. */
  lemma StageStep<V, C>(res: map<string, Option<V>>, callbacks: map<string, C>,
                        tasks: seq<Task>, stages: seq<string>, i: nat)
    requires i < |stages|
    ensures var before := ResultAfter(res, callbacks, tasks, stages[..i]);
            var o := Classify(before, callbacks, GetTask(tasks, stages[i]));
      && ResultAfter(res, callbacks, tasks, stages[..i + 1]) == ApplyStage(before, o)
      && Trace(res, callbacks, tasks, stages[..i + 1]) == Trace(res, callbacks, tasks, stages[..i]) + [o]
  {
    assert stages[..i + 1][..i] == stages[..i];
  }

  lemma {:induction false} TraceLength<V, C>(res: map<string, Option<V>>, callbacks: map<string, C>,
                                             tasks: seq<Task>, stages: seq<string>)
    ensures |Trace(res, callbacks, tasks, stages)| == |stages|
    decreases |stages|
  {
    if stages != [] {
      TraceLength(res, callbacks, tasks, stages[..|stages| - 1]);
    }
  }

  /** A run has one outcome per configured stage name, and entry `i` is for
      the task looked up for stage `i`. */
  lemma {:induction false} TraceFollowsStages<V, C>(res: map<string, Option<V>>, callbacks: map<string, C>,
                                                    tasks: seq<Task>, stages: seq<string>)
    ensures var trace := Trace(res, callbacks, tasks, stages);
      && |trace| == |stages|
      && forall i :: 0 <= i < |stages| ==> trace[i].task == GetTask(tasks, stages[i])
    decreases |stages|
  {
    TraceLength(res, callbacks, tasks, stages);
    if stages != [] {
      var n := |stages| - 1;
      var prev := stages[..n];
      TraceFollowsStages(res, callbacks, tasks, prev);
      var task := GetTask(tasks, stages[n]);
      var last := Classify(ResultAfter(res, callbacks, tasks, prev), callbacks, task);
      assert Trace(res, callbacks, tasks, stages) == Trace(res, callbacks, tasks, prev) + [last];
      FollowsSnoc(tasks, stages, Trace(res, callbacks, tasks, prev), last);
    }
  }

  lemma FollowsSnoc<V>(tasks: seq<Task>, stages: seq<string>, trace: seq<StageOutcome<V>>, last: StageOutcome<V>)
    requires |stages| > 0 && |trace| == |stages| - 1
    requires forall i :: 0 <= i < |trace| ==> trace[i].task == GetTask(tasks, stages[..|stages| - 1][i])
    requires last.task == GetTask(tasks, stages[|stages| - 1])
    ensures forall i :: 0 <= i < |stages| ==> (trace + [last])[i].task == GetTask(tasks, stages[i])
  {
    forall i | 0 <= i < |trace| ensures (trace + [last])[i].task == GetTask(tasks, stages[i]) {
      assert stages[..|stages| - 1][i] == stages[i];
    }
  }

  /** A run removes no key from `Result`, and every entry afterwards either
      is as before or holds nil. */
  lemma {:induction false} RunOnlyAddsNils<V, C>(res: map<string, Option<V>>, callbacks: map<string, C>,
                                                 tasks: seq<Task>, stages: seq<string>)
    ensures var r := ResultAfter(res, callbacks, tasks, stages);
      && res.Keys <= r.Keys
      && forall k :: k in r ==> r[k] == None || (k in res && r[k] == res[k])
    decreases |stages|
  {
    if stages != [] {
      RunOnlyAddsNils(res, callbacks, tasks, stages[..|stages| - 1]);
    }
  }

  /** The names of the tasks whose callback a trace invoked. */
  function InvokedNames<V>(trace: seq<StageOutcome<V>>): set<string>
  {
    set i | 0 <= i < |trace| && trace[i].Invoked? :: trace[i].task.name
  }

  ghost predicate AllNil<V>(res: map<string, Option<V>>)
  {
    forall k :: k in res ==> res[k] == None
  }

  lemma InvokedNamesSnoc<V>(trace: seq<StageOutcome<V>>, o: StageOutcome<V>)
    ensures InvokedNames(trace + [o]) == InvokedNames(trace) + (if o.Invoked? then {o.task.name} else {})
  {
    var t' := trace + [o];
    forall n | n in InvokedNames(t')
      ensures n in InvokedNames(trace) + (if o.Invoked? then {o.task.name} else {})
    {
      var i :| 0 <= i < |t'| && t'[i].Invoked? && t'[i].task.name == n;
      if i < |trace| { assert trace[i] == t'[i]; }
    }
    forall n | n in InvokedNames(trace) ensures n in InvokedNames(t') {
      var i :| 0 <= i < |trace| && trace[i].Invoked? && trace[i].task.name == n;
      assert t'[i] == trace[i];
    }
    if o.Invoked? { assert t'[|trace|] == o; }
  }

  /** The whole effect of a run on `Result`: the keys added are exactly the
      names of the tasks whose callback was invoked, each of those holds
      nil, and every other entry is as before. */
  lemma {:induction false} RunResultShape<V, C>(res: map<string, Option<V>>, callbacks: map<string, C>,
                                                tasks: seq<Task>, stages: seq<string>)
    ensures var r := ResultAfter(res, callbacks, tasks, stages);
            var names := InvokedNames(Trace(res, callbacks, tasks, stages));
      && r.Keys == res.Keys + names
      && (forall k :: k in names ==> r[k] == None)
      && (forall k :: k in res && k !in names ==> r[k] == res[k])
    decreases |stages|
  {
    if stages != [] {
      var prev := stages[..|stages| - 1];
      RunResultShape(res, callbacks, tasks, prev);
      var before := ResultAfter(res, callbacks, tasks, prev);
      var o := Classify(before, callbacks, GetTask(tasks, stages[|stages| - 1]));
      InvokedNamesSnoc(Trace(res, callbacks, tasks, prev), o);
    }
  }

  /** Starting from results that are all nil, a run keeps them all nil and
      never takes the dependency branch. */
  lemma {:induction false} NilResultsNeverDefer<V, C>(res: map<string, Option<V>>, callbacks: map<string, C>,
                                                      tasks: seq<Task>, stages: seq<string>)
    requires AllNil(res)
    ensures AllNil(ResultAfter(res, callbacks, tasks, stages))
    ensures forall o :: o in Trace(res, callbacks, tasks, stages) ==> !o.Deferred?
    decreases |stages|
  {
    if stages != [] {
      var prev := stages[..|stages| - 1];
      NilResultsNeverDefer(res, callbacks, tasks, prev);
      var before := ResultAfter(res, callbacks, tasks, prev);
      var t := GetTask(tasks, stages[|stages| - 1]);
      assert Get(before, t.store) == None;
      assert Trace(res, callbacks, tasks, stages) == Trace(res, callbacks, tasks, prev) + [Classify(before, callbacks, t)];
    }
  }

  /** The state `Workflow.Run` works on: the results map and the callback
      registry (a name is registered when it maps to a non-nil function). */
  class Workflow<V, C> {
    var result: map<string, Option<V>>
    var callbacks: map<string, C>

    constructor (result: map<string, Option<V>>, callbacks: map<string, C>)
      ensures this.result == result && this.callbacks == callbacks
    {
      this.result := result;
      this.callbacks := callbacks;
    }

    /** Runs every configured stage once, in order. The returned trace says,
        stage by stage, which task was resolved and which branch it took. */
    method Run(cnf: Config) returns (trace: seq<StageOutcome<V>>)
      modifies this`result
      ensures result == ResultAfter(old(result), callbacks, cnf.tasks, cnf.stages)
      ensures trace == Trace(old(result), callbacks, cnf.tasks, cnf.stages)
    {
      trace := [];
      var i := 0;
      assert cnf.stages[..i] == [];
      while i < |cnf.stages|
        invariant 0 <= i <= |cnf.stages|
        invariant result == ResultAfter(old(result), callbacks, cnf.tasks, cnf.stages[..i])
        invariant trace == Trace(old(result), callbacks, cnf.tasks, cnf.stages[..i])
      {
        var stage := cnf.stages[i];
        var task := GetTask(cnf.tasks, stage);
        ghost var before := result;
        var o;
        if task.func in callbacks {
          if Get(result, task.store).Some? {
            o := Deferred(task, Get(result, task.store).value);
          } else {
            o := Invoked(task);
            result := result[task.name := None];
          }
        } else {
          o := Unregistered(task);
        }
        assert o == Classify(before, callbacks, task);
        assert result == ApplyStage(before, o);
        StageStep(old(result), callbacks, cnf.tasks, cnf.stages, i);
        trace := trace + [o];
        assert result == ResultAfter(old(result), callbacks, cnf.tasks, cnf.stages[..i + 1]);
        assert trace == Trace(old(result), callbacks, cnf.tasks, cnf.stages[..i + 1]);
        i := i + 1;
      }
      assert cnf.stages[..i] == cnf.stages;
    }
  }
}

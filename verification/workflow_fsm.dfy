/** The state-machine workflow of backend/app/workflow/fsm.go: task lookup
    by name (the event list is `FsmTypes.BuildEvents`) and the stage
    handlers that fill, save and check the shared `Data` map. */
module WorkflowFsm {
  import opened Wrappers
  import opened FsmTypes
  import Lookup

  /** A configured task, as this file declares it. */
  datatype Task = Task(name: string, kind: string, event: string, func: string, url: string,
                       httpMethod: string, headers: seq<Header>, responseStruct: string, store: string)

  /** Go's zero value of `Task`. */
  const ZeroTask := Task("", "", "", "", "", "", [], "", "")

  datatype Workflow = Workflow(transitions: seq<Transition>, tasks: seq<Task>)

  /** The key under which a successful fetch also records its result. */
  const FetchResultKey := "fetchResult"

  /** `getTaskByName`: the first task in list order named `name`, or the zero
      task when none is. */
  function GetTaskByName(tasks: seq<Task>, name: string): (t: Task)
    ensures forall i :: 0 <= i < |tasks| && tasks[i].name == name && (forall j :: 0 <= j < i ==> tasks[j].name != name) ==> t == tasks[i]
    ensures (forall i :: 0 <= i < |tasks| ==> tasks[i].name != name) ==> t == ZeroTask
  {
    Lookup.FirstOrFinds(tasks, (u: Task) => u.name == name, ZeroTask);
    Lookup.FirstOr(tasks, (u: Task) => u.name == name, ZeroTask)
  }

  /** How fetching the server list ended. A failed decode may leave a
      partially filled value behind, which is what the fetch then returns. */
  datatype FetchOutcome =
    | RequestFailed
    | CallFailed
    | ReadFailed
    | DecodeFailed(partial: CloudServers)
    | Decoded(value: CloudServers)

  /** The value `FetchFromHetzner` returns for an outcome: the decoded
      list, the partly decoded list after a failed decode, and the empty
      list after a failed request, call or body read. */
  function FetchReturn(outcome: FetchOutcome): (r: CloudServers)
    ensures outcome.Decoded? ==> r == outcome.value
    ensures outcome.DecodeFailed? ==> r == outcome.partial
    ensures outcome.RequestFailed? || outcome.CallFailed? || outcome.ReadFailed? ==> r.servers == []
  {
    match outcome
    case Decoded(v) => v
    case DecodeFailed(p) => p
    case _ => NoServers
  }

  /** `Data` after a fetch: unchanged on any failure; on success the decoded
      value is stored under the task's response name and under the
      fetch-result key, and nothing else changes. */
  function AfterFetch(data: map<string, CloudServers>, task: Task, outcome: FetchOutcome): (r: map<string, CloudServers>)
    ensures !outcome.Decoded? ==> r == data
    ensures outcome.Decoded? ==>
              && r.Keys == data.Keys + {task.responseStruct, FetchResultKey}
              && r[task.responseStruct] == outcome.value
              && r[FetchResultKey] == outcome.value
    ensures forall k :: k in data && k != task.responseStruct && k != FetchResultKey ==> k in r && r[k] == data[k]
  {
    if outcome.Decoded? then data[task.responseStruct := outcome.value][FetchResultKey := outcome.value]
    else data
  }

  /** What `SaveInStore` writes: the fetch-result entry, into the file named
      after the task's store, when that entry exists and the file could be
      created. */
  function SaveTarget(data: map<string, CloudServers>, task: Task, created: bool): (w: Option<FileWrite>)
    ensures w.Some? <==> FetchResultKey in data && created
    ensures w.Some? ==> w.value.path == task.store + ".json" && w.value.content == data[FetchResultKey]
  {
    if FetchResultKey in data && created then Some(FileWrite(task.store + ".json", data[FetchResultKey]))
    else None
  }

  /** After a successful fetch, saving writes exactly the fetched servers,
      whatever the saving task's response name; after a failed fetch it
      writes whatever an earlier fetch left, or nothing. */
  lemma SaveWritesLastFetch(data: map<string, CloudServers>, fetchTask: Task, outcome: FetchOutcome,
                            saveTask: Task, created: bool)
    ensures outcome.Decoded? && created ==>
              SaveTarget(AfterFetch(data, fetchTask, outcome), saveTask, created)
                == Some(FileWrite(saveTask.store + ".json", outcome.value))
    ensures !outcome.Decoded? ==>
              SaveTarget(AfterFetch(data, fetchTask, outcome), saveTask, created) == SaveTarget(data, saveTask, created)
  {
  }

  /** A sequence of fetches, in order, on one `Data` map. */
  function AfterFetches(data: map<string, CloudServers>, fetches: seq<(Task, FetchOutcome)>): map<string, CloudServers>
    decreases |fetches|
  {
    if fetches == [] then data
    else
      var last := fetches[|fetches| - 1];
      AfterFetch(AfterFetches(data, fetches[..|fetches| - 1]), last.0, last.1)
  }

  /** Fetch `i` is the last one that succeeded. */
  ghost predicate LastSuccess(fetches: seq<(Task, FetchOutcome)>, i: int)
  {
    0 <= i < |fetches| && fetches[i].1.Decoded? && forall j :: i < j < |fetches| ==> !fetches[j].1.Decoded?
  }

  /** Starting from an empty `Data` map, the fetch-result entry exists
      exactly when some fetch succeeded. */
  lemma {:induction false} FetchResultPresent(fetches: seq<(Task, FetchOutcome)>)
    ensures FetchResultKey in AfterFetches(map[], fetches) <==> exists i :: 0 <= i < |fetches| && fetches[i].1.Decoded?
    decreases |fetches|
  {
    if fetches != [] {
      var n := |fetches| - 1;
      var prev, last := fetches[..n], fetches[n];
      FetchResultPresent(prev);
      var d0, d := AfterFetches(map[], prev), AfterFetches(map[], fetches);
      assert d == AfterFetch(d0, last.0, last.1);
      if last.1.Decoded? {
        assert FetchResultKey in d && fetches[n].1.Decoded?;
      } else {
        assert d == d0;
        assert (exists i :: 0 <= i < |fetches| && fetches[i].1.Decoded?) ==>
               (exists i :: 0 <= i < |prev| && prev[i].1.Decoded?) by {
          if i :| 0 <= i < |fetches| && fetches[i].1.Decoded? {
            assert prev[i] == fetches[i];
          }
        }
        assert (exists i :: 0 <= i < |prev| && prev[i].1.Decoded?) ==>
               (exists i :: 0 <= i < |fetches| && fetches[i].1.Decoded?) by {
          if i :| 0 <= i < |prev| && prev[i].1.Decoded? {
            assert fetches[i] == prev[i];
          }
        }
      }
    }
  }

  /** Starting from an empty `Data` map, the fetch-result entry exists
      exactly when some fetch succeeded, and then it holds the value of the
      last successful one. */
  lemma {:induction false} FetchResultIsLastSuccess(fetches: seq<(Task, FetchOutcome)>)
    ensures var d := AfterFetches(map[], fetches);
      && (FetchResultKey in d <==> exists i :: 0 <= i < |fetches| && fetches[i].1.Decoded?)
      && (forall i :: LastSuccess(fetches, i) ==> d[FetchResultKey] == fetches[i].1.value)
    decreases |fetches|
  {
    FetchResultPresent(fetches);
    if fetches != [] {
      var n := |fetches| - 1;
      var prev, last := fetches[..n], fetches[n];
      FetchResultIsLastSuccess(prev);
      var d0, d := AfterFetches(map[], prev), AfterFetches(map[], fetches);
      assert d == AfterFetch(d0, last.0, last.1);
      if last.1.Decoded? {
        assert FetchResultKey in d && d[FetchResultKey] == last.1.value;
        forall i | LastSuccess(fetches, i) ensures i == n { }
      } else {
        assert d == d0;
        forall i | LastSuccess(fetches, i) ensures LastSuccess(prev, i) {
          assert prev[i] == fetches[i];
        }
      }
    }
  }

  /** The shared state of the state-machine handlers. */
  class WorkflowFsm {
    const workflow: Workflow
    var data: map<string, CloudServers>

    /** `LoadWorkflow` starts every run with an empty `Data` map. */
    constructor (workflow: Workflow)
      ensures this.workflow == workflow && data == map[]
    {
      this.workflow := workflow;
      data := map[];
    }

    /** Fetches the server list; the network and the decoder are abstracted
        by `outcome`. */
    method FetchFromHetzner(task: Task, outcome: FetchOutcome) returns (r: CloudServers)
      modifies this`data
      ensures data == AfterFetch(old(data), task, outcome)
      ensures r == FetchReturn(outcome)
    {
      match outcome {
        case Decoded(v) =>
          data := data[task.responseStruct := v];
          data := data[FetchResultKey := v];
          r := v;
        case DecodeFailed(p) =>
          r := p;
        case _ =>
          r := NoServers;
      }
    }

    /** Saves the fetch-result entry; the `response` argument is only logged
        and plays no part in what is written. `created` is whether the file
        could be created. */
    method SaveInStore(task: Task, response: CloudServers, created: bool) returns (written: Option<FileWrite>)
      ensures written == SaveTarget(data, task, created)
      ensures written.Some? ==> FetchResultKey in data && written.value.content == data[FetchResultKey]
      ensures FetchResultKey !in data ==> written == None
    {
      if FetchResultKey !in data {
        return None;
      }
      if !created {
        return None;
      }
      written := Some(FileWrite(task.store + ".json", data[FetchResultKey]));
    }

    /** Shows the fetch-result entry if there is one; reads `Data` only. */
    method CheckResponse() returns (shown: Option<CloudServers>)
      ensures shown.Some? <==> FetchResultKey in data
      ensures shown.Some? ==> shown.value == data[FetchResultKey]
    {
      if FetchResultKey !in data {
        return None;
      }
      shown := Some(data[FetchResultKey]);
    }
  }
}

/** The state-machine program of backend/app/fsm.go, which declares its
    own `main` beside the one in backend/app/main.go and so is a program of
    its own:
    task lookup by name (the event list is `FsmTypes.BuildEvents`) and the
    two handlers that fill and save the shared `Data` map, each keyed by its
    own task's response name. */
module MainFsm {
  import opened Wrappers
  import opened FsmTypes
  import Lookup

  /** A configured task, as this file declares it. */
  datatype Task = Task(name: string, kind: string, url: string, httpMethod: string,
                       headers: seq<Header>, responseStruct: string, store: string)

  /** Go's zero value of `Task`. */
  const ZeroTask := Task("", "", "", "", [], "", "")

  datatype Workflow = Workflow(transitions: seq<Transition>, tasks: seq<Task>)

  /** The task names the two handlers look up. */
  const FetchTaskName := "fetch_from_hetzner"
  const SaveTaskName := "save_in_store"

  /** `getTaskByName`: the first task in list order named `name`, or the zero
      task when none is. */
  function GetTaskByName(tasks: seq<Task>, name: string): (t: Task)
    ensures forall i :: 0 <= i < |tasks| && tasks[i].name == name && (forall j :: 0 <= j < i ==> tasks[j].name != name) ==> t == tasks[i]
    ensures (forall i :: 0 <= i < |tasks| ==> tasks[i].name != name) ==> t == ZeroTask
  {
    Lookup.FirstOrFinds(tasks, (u: Task) => u.name == name, ZeroTask);
    Lookup.FirstOr(tasks, (u: Task) => u.name == name, ZeroTask)
  }

  /** How fetching the server list ended. */
  datatype FetchOutcome = RequestFailed | CallFailed | ReadFailed | DecodeFailed | Decoded(value: CloudServers)

  /** `Data` after a fetch: unchanged on any failure; on success only the
      entry under the task's response name is set, to the decoded value. */
  function AfterFetch(data: map<string, CloudServers>, task: Task, outcome: FetchOutcome): (r: map<string, CloudServers>)
    ensures !outcome.Decoded? ==> r == data
    ensures outcome.Decoded? ==> r.Keys == data.Keys + {task.responseStruct} && r[task.responseStruct] == outcome.value
    ensures forall k :: k in data && k != task.responseStruct ==> k in r && r[k] == data[k]
  {
    if outcome.Decoded? then data[task.responseStruct := outcome.value] else data
  }

  /** What `SaveInStore` writes: the entry under its own task's response
      name, into the file named after the task's store, when that entry
      exists and the file could be created. */
  function SaveTarget(data: map<string, CloudServers>, task: Task, created: bool): (w: Option<FileWrite>)
    ensures w.Some? <==> task.responseStruct in data && created
    ensures w.Some? ==> w.value.path == task.store + ".json" && w.value.content == data[task.responseStruct]
  {
    if task.responseStruct in data && created then Some(FileWrite(task.store + ".json", data[task.responseStruct]))
    else None
  }

  /** A sequence of fetches, in order, on one `Data` map. */
  function AfterFetches(data: map<string, CloudServers>, fetches: seq<(Task, FetchOutcome)>): map<string, CloudServers>
    decreases |fetches|
  {
    if fetches == [] then data
    else
      var last := fetches[|fetches| - 1];
      AfterFetch(AfterFetches(data, fetches[..|fetches| - 1]), last.0, last.1)
  }

  /** Starting from an empty `Data` map, saving finds data exactly when an
      earlier fetch succeeded with a task of the same response name. */
  lemma {:induction false} SaveFindsOnlyMatchingFetch(fetches: seq<(Task, FetchOutcome)>, saveTask: Task, created: bool)
    ensures SaveTarget(AfterFetches(map[], fetches), saveTask, created).Some? <==>
              created && exists i :: 0 <= i < |fetches| && fetches[i].1.Decoded? && fetches[i].0.responseStruct == saveTask.responseStruct
    decreases |fetches|
  {
    if fetches != [] {
      var n := |fetches| - 1;
      var prev, last := fetches[..n], fetches[n];
      SaveFindsOnlyMatchingFetch(prev, saveTask, created);
      var rs := saveTask.responseStruct;
      assert AfterFetches(map[], fetches) == AfterFetch(AfterFetches(map[], prev), last.0, last.1);
      assert (exists i :: 0 <= i < |prev| && prev[i].1.Decoded? && prev[i].0.responseStruct == rs) <==>
             (exists i :: 0 <= i < n && fetches[i].1.Decoded? && fetches[i].0.responseStruct == rs) by {
        forall i | 0 <= i < n ensures prev[i] == fetches[i] { }
      }
    }
  }

  /** The run `main` wires up: the fetch handler with the task named
      "fetch_from_hetzner", then the save handler with the task named
      "save_in_store", on a fresh `Data` map. A file is written exactly when
      the fetch succeeded, the file could be created and the two tasks share
      a response name (the zero task's empty name counts when a task is
      missing), and it then holds the fetched servers. */
  lemma FetchThenSave(tasks: seq<Task>, outcome: FetchOutcome, created: bool)
    ensures var fetchTask := GetTaskByName(tasks, FetchTaskName);
            var saveTask := GetTaskByName(tasks, SaveTaskName);
            var w := SaveTarget(AfterFetch(map[], fetchTask, outcome), saveTask, created);
      && (w.Some? <==> created && outcome.Decoded? && fetchTask.responseStruct == saveTask.responseStruct)
      && (w.Some? ==> w.value == FileWrite(saveTask.store + ".json", outcome.value))
  {
  }

  /** The shared state of the two handlers. */
  class WorkflowFsm {
    const workflow: Workflow
    var data: map<string, CloudServers>

    /** `main` starts with an empty `Data` map. */
    constructor (workflow: Workflow)
      ensures this.workflow == workflow && data == map[]
    {
      this.workflow := workflow;
      data := map[];
    }

    /** Fetches the server list; the network and the decoder are abstracted
        by `outcome`. */
    method FetchFromHetzner(task: Task, outcome: FetchOutcome)
      modifies this`data
      ensures data == AfterFetch(old(data), task, outcome)
    {
      if outcome.Decoded? {
        data := data[task.responseStruct := outcome.value];
      }
    }

    /** Saves the entry under the task's own response name. `created` is
        whether the file could be created. */
    method SaveInStore(task: Task, created: bool) returns (written: Option<FileWrite>)
      ensures written == SaveTarget(data, task, created)
      ensures written.Some? ==> task.responseStruct in data && written.value.content == data[task.responseStruct]
      ensures task.responseStruct !in data ==> written == None
    {
      if task.responseStruct !in data {
        return None;
      }
      if !created {
        return None;
      }
      written := Some(FileWrite(task.store + ".json", data[task.responseStruct]));
    }
  }
}

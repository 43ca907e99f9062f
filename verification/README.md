# Stage sequencer, known-server store and state-machine handlers — a Dafny model

This project models the sequential core of a small Go daemon that polls a
cloud provider's server list. The daemon is driven by a declarative workflow
of named stages, transitions and tasks. The model covers three pieces of that
code. Network, file and library effects become inputs.

- **Stage sequencer** (`backend/app/workflow/workflow.go`, module
  `Orchestrator`). `Workflow.Run` walks the configured stage names in order.
  It resolves each name to a task with a first-match search (`getTask`). It
  then picks the callback registered under the task's `Func`. `Result` is a
  `map<string, Option<V>>`: a key holding `None` holds nil, which is told
  apart from an absent key (reading either gives nil). The callback
  registry is a `map<string, C>` of opaque callbacks. `Run` returns a trace
  with one `StageOutcome` per stage: `Unregistered`, `Deferred` (the
  dependency branch) or `Invoked` (the callback was called once, with the
  task). That trace is the model's record of which callbacks ran.
- **Known-server de-duplication** (`backend/app/task/task.go`, module
  `KnownServers`). For each configured service, the outcome of fetching its
  server list is an input (`None` for any request, call, read or decode
  failure). Each decoded server is then checked against a key/value store
  keyed by (bucket = service ident, key = IPv4 address). The server is saved
  only when the store answers the empty string. The store package is not
  part of this model. Its assumed contract is: `Get` answers `""` for an
  absent key, and `Save` sets the message's key in its bucket to the
  message's data.
- **State-machine handlers** (`backend/app/workflow/fsm.go`, module
  `WorkflowFsm`; `backend/app/fsm.go`, module `MainFsm`). Both files have a
  first-match `getTaskByName` and build the event list from the transitions.
  Their handlers fill and read the shared `Data` map. The two files declare
  their own task records, so each module keeps its own task type and lookup.
  The first-match search itself is written once, as `Lookup.FirstOr`, and its contract is proved once, as `Lookup.FirstOrFinds`. The
  records that both files declare identically live in `FsmTypes`, together
  with the event-list builder, which both files write the same way over
  those records.

The model follows the code as written. Where the code departs from what it
evidently aims at, that is stated here:

- An unregistered callback leaves `Result` untouched. No entry is written
  for the stage.
- When `Result[task.Store]` is non-nil, nothing is called. The call with the
  prior result is commented out (`backend/app/workflow/workflow.go:28`).
- The value stored after a callback is the package variable `result`. The
  assignment of the callback's return value to it is commented out
  (`backend/app/workflow/workflow.go:16, 35`), so the stored value is always
  nil. `Orchestrator.NilResultsNeverDefer` proves the consequence: starting
  from all-nil results, the dependency branch is never taken.
- `Workflow.Run` walks the `Stages` list. It does not follow the transition
  table.
- The per-server check in `task.go` tests whether the stored value is
  non-empty, not whether the key is present. So a server whose name is
  empty can be saved again when the loop runs again on the same store.
  `KnownServers.SecondPassResendsOnlyEmptyNames` proves that a second pass
  saves exactly the servers whose address still reads empty, and that all
  of them have empty names.
- In `backend/app/workflow/fsm.go`, a failed JSON decode returns whatever the
  decoder left in the value. Go's decoder may fill part of it on a type
  mismatch. The model keeps this as `DecodeFailed(partial)`. `Data` is
  unchanged in every failure case.
- The files cannot all be built together. `backend/app/main.go:26` and
  `backend/app/fsm.go:128` both declare `func main` in package `main`.
  `backend/app/workflow/workflow.go:9,14` and
  `backend/app/workflow/fsm.go:17,28` both declare `Workflow` and
  `Callbacks` in package `workflow`. The model gives each file its own
  module, with its own record types.

## Model

| member | source | states |
|---|---|---|
| `Lookup.FirstOrFinds` | backend/app/workflow/workflow.go:47-54 | the result is the first element in list order that matches; when no element matches, it is the given zero value. The three task lookups (`getTask` here, `getTaskByName` at backend/app/workflow/fsm.go:257-264 and backend/app/fsm.go:193-200) are this search over their own task type |
| `Orchestrator.GetTaskFirstMatch` | backend/app/workflow/workflow.go:47-54 | the result is the first task in list order whose name equals the stage; with no such task, it is the zero task |
| `Orchestrator.ClassifyCases` | backend/app/workflow/workflow.go:23-37 | the outcome carries the task given; it is unregistered exactly when no callback is registered under `Func`; it takes the dependency branch exactly when a callback is registered and `Result[Store]` is non-nil, and it then carries that stored value; otherwise the callback is invoked |
| `Orchestrator.ApplyStageEffect` | backend/app/workflow/workflow.go:23-37 | a stage that did not invoke its callback leaves `Result` equal to before; an invoked stage makes its task's name hold nil and changes no other key |
| `Orchestrator.RunOnlyAddsNils` | backend/app/workflow/workflow.go:20-37 | running stages in order removes no key from `Result`, and every entry afterwards either is as before or holds nil |
| `Orchestrator.TraceFollowsStages` | backend/app/workflow/workflow.go:20-22 | a run has exactly one outcome per configured stage, in stage order, and entry i is for the task `getTask` resolves for stage i |
| `Orchestrator.RunResultShape` | backend/app/workflow/workflow.go:20-37 | after a run, the keys of `Result` are the old keys plus exactly the names of the tasks whose callback was invoked; those hold nil, and every other entry is unchanged |
| `Orchestrator.NilResultsNeverDefer` | backend/app/workflow/workflow.go:16-36 | from a `Result` that holds only nil values, a run keeps every value nil and no stage takes the dependency branch |
| `Orchestrator.Workflow.constructor` | backend/app/workflow/workflow.go:9-12 | the workflow holds the given results and callback registry |
| `Orchestrator.Workflow.Run` | backend/app/workflow/workflow.go:18-40 | the new `Result` is the one the stages produce in order (so `RunResultShape` applies), the returned trace is `Trace`, and the registry is not modified |
| `KnownServers.MessageFor` | backend/app/task/task.go:90-95 | the message for a server is keyed by its IPv4 address, in the service's bucket, of type "server", and carries the server's name |
| `KnownServers.SaveIfUnknownStep` | backend/app/task/task.go:85-97 | one step of the server loop: afterwards the server's address is present in the bucket and no other entry changes; an address already holding a non-empty value is left alone; for an address that read empty, the step is exactly the `Save` of the server's message, so the address now holds the server's name |
| `KnownServers.SaveAllFrame` | backend/app/task/task.go:84-98 | the server loop touches only the service's bucket; it never overwrites a non-empty entry; every new or changed entry holds the name of a listed server with that IPv4 address |
| `KnownServers.SavedMessages` | backend/app/task/task.go:85-97 | there are no more messages than servers; each message has the service's ident as bucket and type "server", is the message for a listed server (key = IPv4, data = name), and has a key whose stored value was empty before the loop |
| `KnownServers.SavedMessagesExact` | backend/app/task/task.go:84-98 | the messages are, in list order and once each, those of exactly the servers whose address reads empty when the loop reaches them: a strictly increasing list of positions matches the messages one to one, and a position is in it exactly when that server's address reads empty at that point of the loop |
| `KnownServers.SaveAllSettles` | backend/app/task/task.go:84-98 | after the loop, every listed server's address is in the bucket, and its value is empty only if that server's name is empty; so a server with a non-empty name stays known for later passes on the same store |
| `KnownServers.StoreAtKeepsNonEmpty` | backend/app/task/task.go:84-98 | once the loop has left a non-empty value at a key, every server it reaches later in the same response, whatever its address, leaves that value unchanged |
| `KnownServers.StoreAtStaysEmpty` | backend/app/task/task.go:84-98 | an address that read empty before the loop still reads empty when the loop reaches server i, provided every earlier server with that address has an empty name |
| `KnownServers.FirstNonEmptyNameWins` | backend/app/task/task.go:84-98 | of the servers in one response that share an address reading empty before the loop, the first one with a non-empty name is the one whose name the store holds afterwards |
| `KnownServers.SettledIsFixpoint` | backend/app/task/task.go:84-98 | on a store where every listed address is present and holds a non-empty value or an empty-named server's value, the loop changes nothing |
| `KnownServers.SaveAllIdempotent` | backend/app/task/task.go:84-98 | running the loop twice on the same server list leaves the store as the first pass left it |
| `KnownServers.SecondPassResendsOnlyEmptyNames` | backend/app/task/task.go:84-98 | a second pass over the same list, on the store the first pass left, saves a server's message exactly when its address still reads empty, and every message it saves carries an empty name |
| `KnownServers.FetchEntries` | backend/app/task/task.go:29-98 | one service: a failed fetch leaves the store unchanged; otherwise every other bucket keeps exactly its keys and values (no key is added or changed there) and no non-empty entry is overwritten |
| `KnownServers.FetchMessages` | backend/app/task/task.go:29-98 | one service: a failed fetch saves no message; otherwise there are at most as many messages as listed servers, all in the service's bucket and of type "server" |
| `KnownServers.RunEntries` | backend/app/task/task.go:29-98 | processing the services in order never overwrites a non-empty entry, and every bucket that no successfully fetched service owns keeps exactly its keys and values: none is changed, removed or added |
| `KnownServers.RunMessages` | backend/app/task/task.go:29-98 | every message saved during a run has type "server" and the bucket of a service whose fetch succeeded |
| `KnownServers.FailedFetchSkipped` | backend/app/task/task.go:29-78 | a service whose request, call, read or decode failed writes nothing and sends nothing, and the services after it are processed exactly as if it were not configured |
| `KnownServers.Store.Get` | backend/app/task/task.go:85 | assumed store contract: the value stored under (bucket, key), or `""` when there is none |
| `KnownServers.Store.Save` | backend/app/task/task.go:97 | assumed store contract: the message's key in its bucket is set to its data, and nothing else changes |
| `KnownServers.SaveNewServers` | backend/app/task/task.go:84-98 | the store after the server loop is `SaveAll` of the old store, and the messages passed to `Save` are `SavedMessages`, in order |
| `KnownServers.Run` | backend/app/task/task.go:26-100 | the store after `Task.Run` is `RunEntries` of the old store, and the messages saved are `RunMessages`, in order |
| `WorkflowFsm.GetTaskByName` | backend/app/workflow/fsm.go:257-264 | the result is the first task in list order with the queried name; with no such task, it is the zero task |
| `FsmTypes.BuildEvents` | backend/app/workflow/fsm.go:182-189 | there is one event per transition, in the same order, with the transition's name, its source as the only source state, and its target as the destination; `backend/app/fsm.go:152-159` builds the list from the same record type in the same loop, and it is modelled by this member too |
| `WorkflowFsm.AfterFetch` | backend/app/workflow/fsm.go:106-117 | a failed fetch leaves `Data` unchanged; a successful one sets the response-name entry and the "fetchResult" entry to the decoded value, and no other key changes |
| `WorkflowFsm.FetchReturn` | backend/app/workflow/fsm.go:80-117 | the value the fetch returns: the decoded list on success, the partly decoded list after a failed decode, and the empty list after a failed request, call or body read |
| `WorkflowFsm.SaveTarget` | backend/app/workflow/fsm.go:124-143 | a file is written exactly when `Data` has a "fetchResult" entry and the file could be created; it is named `<store>.json` and holds that entry |
| `WorkflowFsm.SaveWritesLastFetch` | backend/app/workflow/fsm.go:124-143 | after a successful fetch, saving writes exactly the fetched servers to `<store>.json`, whatever the saving task's response name is; after a failed fetch, it writes what an earlier fetch left, if anything |
| `WorkflowFsm.FetchResultPresent` | backend/app/workflow/fsm.go:113-114 | a step of `FetchResultIsLastSuccess`, proved on its own: after a sequence of fetches on an empty `Data`, "fetchResult" is present exactly when some fetch succeeded |
| `WorkflowFsm.FetchResultIsLastSuccess` | backend/app/workflow/fsm.go:113-114 | after a sequence of fetches on an empty `Data`, "fetchResult" is present exactly when some fetch succeeded, and then it holds the value of the last successful fetch |
| `WorkflowFsm.WorkflowFsm.constructor` | backend/app/workflow/fsm.go:176-179 | a new workflow state holds the loaded workflow and an empty `Data` map |
| `WorkflowFsm.WorkflowFsm.FetchFromHetzner` | backend/app/workflow/fsm.go:77-118 | `Data` becomes `AfterFetch` of the old `Data`; the result is the decoded value, the partly decoded value after a failed decode, or the empty server list after an earlier failure |
| `WorkflowFsm.WorkflowFsm.SaveInStore` | backend/app/workflow/fsm.go:121-145 | nothing is written when `Data` has no "fetchResult" entry; what is written is that entry, never the `response` argument; `Data` is not modified |
| `WorkflowFsm.WorkflowFsm.CheckResponse` | backend/app/workflow/fsm.go:147-156 | it shows the "fetchResult" entry exactly when one exists, and it never modifies `Data` |
| `MainFsm.GetTaskByName` | backend/app/fsm.go:193-200 | the result is the first task in list order with the queried name; with no such task, it is the zero task |
| `MainFsm.AfterFetch` | backend/app/fsm.go:90-99 | a failed fetch leaves `Data` unchanged; a successful one sets the entry under the task's response name and changes no other key (there is no separate "fetchResult" write as in `backend/app/workflow/fsm.go:114`) |
| `MainFsm.SaveTarget` | backend/app/fsm.go:105-124 | a file is written exactly when `Data` has an entry under the task's own response name and the file could be created; it is named `<store>.json` and holds that entry |
| `MainFsm.SaveFindsOnlyMatchingFetch` | backend/app/fsm.go:98-109 | after a sequence of fetches on an empty `Data`, saving finds data exactly when some earlier fetch succeeded with a task of the same response name (and the file could be created) |
| `MainFsm.FetchThenSave` | backend/app/fsm.go:165-172 | fetching with the "fetch_from_hetzner" task and then saving with the "save_in_store" task writes a file exactly when the fetch succeeded, the file could be created and the two tasks share a response name; the file then holds the fetched servers |
| `MainFsm.WorkflowFsm.constructor` | backend/app/fsm.go:146-149 | a new workflow state holds the loaded workflow and an empty `Data` map |
| `MainFsm.WorkflowFsm.FetchFromHetzner` | backend/app/fsm.go:64-100 | `Data` becomes `AfterFetch` of the old `Data` |
| `MainFsm.WorkflowFsm.SaveInStore` | backend/app/fsm.go:103-126 | nothing is written when `Data` lacks the task's own response-name entry; otherwise that entry is written to `<store>.json` if the file could be created; `Data` is not modified |

## Left out

- HTTP requests, headers, status handling and body reads in `task.go`, `fsm.go` and `workflow/fsm.go` are not modelled. They are network I/O. Only the outcome is kept: failure, or the decoded server list.
- JSON decoding and YAML workflow and config loading are not modelled. They are file I/O plus library parsers. `LoadConfig` in `backend/app/config/config.go` is not part of this model.
- The configuration type that declares `Workflow.Stages`, `Workflow.Tasks`, `Task.Func` and `Task.Store` for `workflow.go` is not part of this model. `Orchestrator.Task` holds exactly the fields that `workflow.go` reads.
- File writing in `SaveInStore` is not modelled. It becomes a returned `FileWrite` (path and content), and the success of `os.Create` becomes the input `created`. The JSON marshalling of the server list cannot fail, so that error path is not modelled.
- Event firing in the state-machine library, and callbacks that fire the next event from inside themselves (`backend/app/workflow/fsm.go:191-243`, `backend/app/fsm.go:161-187`), are not modelled. That library is not part of this model. Only the construction of the event list is modelled, plus, in `MainFsm.FetchThenSave`, the fetch-then-save order that the `main` callbacks set up.
- The scheduler loop, signal handling and the timer in `backend/app/main.go` are not modelled. They are concurrency and timing.
- Which store a run uses is not modelled: `KnownServers.Run` takes the store as a parameter. In the program, only the first run (`backend/app/main.go:60-66`) is given the opened store. The runs on later timer ticks build their task without a `Store` (`backend/app/main.go:75-79`). So the promises about later passes hold for runs that share one store, and the model says nothing about what the store-less runs do.
- The store package internals are not modelled, and neither is what it does with a message's `Type`. They are replaced by the assumed `Get`/`Save` contract.
- Logging, `reflect.TypeOf` and the callback's return value are not modelled. None of them affects state: the return value is only logged.
- The callbacks are assumed not to modify `Result` themselves. They are opaque Go closures, so the model cannot see what they do.
- A registry entry that holds a nil function counts as unregistered, which is what the `!= nil` test makes it. The model simply leaves such entries out of the registry map.
- Writing to a nil `Result` map would panic in Go. The model assumes `Result` was created before `Run`.
- The `defer resp.Body.Close()` inside the service loop of `task.go` is not modelled. It only concerns when resources are released.

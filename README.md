# Monitor / worker coordination, modelled in Dafny

One monitor process keeps a registry of workers. Many worker processes talk to it through
named queues on a message broker. A worker announces its record once on the shared
registration queue `worker_reg`. The monitor registers an unknown worker and declares that
worker's private command queue (`worker_cmd_<hostname>`). Once per tick the monitor picks a
registered worker, toggles its `active` flag in its own copy and sends the whole record to
that worker's command queue. The worker then overwrites every field of its local record that
differs from the record it received. While active, a worker advances its `counter` once per
tick, stamps the time and reports its record on the shared status queue `worker_stt`. The
monitor merges a report only if it already knows the id.

The model takes each callback or loop body as one atomic step:

- `worker_model.dfy` (module `WorkerModel`): the eight-field `Worker` datatype with its
  defaults. It also gives a generic field view (`Field`, `Value`, `Get`, `Set`, `AllFields`)
  and `Diff`, the fields on which two records disagree, in declaration order.
- `monitor_model.dfy` (module `MonitorModel`): the registry as class `Monitor`, whose
  `workers` map is changed in place by `RegisterWorker` and `UpdateWorker`. `Registered` and
  `Updated` are the same two updates written as functions on map values.
- `broker.dfy` (module `Broker`): a `Channel` that keeps ghost logs of its queue
  declarations and publishes, and the three well-known queue names.
- `monitor.dfy` (module `MonitorService`): class `MonitorProcess`, which holds the monitor
  and its command channel. It has the registration handler, the status handler, the command
  publisher and one command-sender tick. `MonitorState` is, as a value, the registry, the
  command channel's two logs and the records registered so far, in order (a ghost log that
  the code itself does not keep). `RegStep`, `StatusStep` and `CmdTick` say what each step
  does to that value, and every handler's and the tick's postcondition is
  `State() == Step(old(State()), ...)`. The lemmas prove that registration is idempotent.
  They also prove that the monitor declares on its command channel exactly one queue per
  registered worker, namely the command queue that worker announced, in registration order.
  And they prove invariants that hold along any sequence of handled events.
- `worker.dfy` (module `WorkerAgent`): class `Agent`, which holds the local record and
  declares its three queues at start-up. It has the announcement, the field-by-field command handler and one status-sender tick.
- `protocol.dfy` (module `Protocol`): the two sides together, as concrete scenarios.

In four places the model follows the code where a reader might expect otherwise:

- The command queue is named `worker_cmd_<hostname>`, not `cmd_<id>`.
- The registry's `update_worker` overwrites without checking that the id is present. The
  status handler checks presence before it calls it.
- Decoding is not guarded. A malformed message is not modelled as dropped, because the code
  has no such path.
- Command application overwrites every field, including `id` and the queue names.

Two consequences of the code are proved and not corrected:

- The command carries the monitor's whole, possibly stale, copy of the record. So a worker
  that has ticked past its last report gets its counter moved back
  (`Protocol.StaleCommandRewindsCounter`). So the counter, which is meant never to decrease
  over a worker's life, can decrease under this code.
- A status report may carry a command queue different from the one declared at
  registration. After that, the registry entry names a queue that was never declared
  (`MonitorService.StatusCanRedirectCommands`). "Routable", meaning every stored command
  queue was declared, is therefore preserved only by reports that keep the registered queue.

## Model

| member | source | states |
|---|---|---|
| `WorkerModel.Defaults` | models/worker_model.py:9-11 | a record built without counter, timestamp or active has counter 0, the default timestamp and active false |
| `WorkerModel.AllFieldsExactlyOnce` | models/worker_model.py:3-11 | the field list has eight entries, contains every field and repeats none |
| `WorkerModel.FieldsDetermineWorker` | models/worker_model.py:3-11 | two records are equal if and only if every field reads the same in both |
| `WorkerModel.Get` | workers/worker.py:73-74 | reading a field yields a value of that field's declared kind |
| `WorkerModel.Set` | workers/worker.py:77 | overwriting a field makes it read the new value and leaves every other field as it was |
| `WorkerModel.DiffOverMembers` | workers/worker.py:72-77 | the reported fields are exactly the listed fields whose values differ, each at most once |
| `WorkerModel.DiffEmptyIffEqual` | workers/worker.py:72-77 | no field is reported if and only if the two records are equal |
| `WorkerModel.DiffSingleField` | workers/worker.py:75-77 | when two records differ in exactly one field, only that field is reported |
| `WorkerModel.DiffOfToggle` | workers/worker.py:75-77 | a record and its toggled copy differ only in `active` |
| `MonitorModel.Registered` | models/monitor_model.py:19-22 | registration adds the id, keeps every stored record as it was and stores the new record only when the id was absent |
| `MonitorModel.Updated` | models/monitor_model.py:24-26 | an update stores the record under its id, present or not; every other entry is unchanged and no key is removed |
| `MonitorModel.RegisteredIdempotent` | models/monitor_model.py:19-22 | registering the same record twice equals registering it once |
| `MonitorModel.RegisteredKeepsStored` | models/monitor_model.py:21 | registering a known id leaves the registry exactly as it was |
| `MonitorModel.UpdatedInsertsAbsent` | models/monitor_model.py:26 | an update of an absent id inserts it, growing the registry by one |
| `MonitorModel.Monitor.constructor` | models/monitor_model.py:4-9 | a new monitor has the given identity and queues and an empty registry |
| `MonitorModel.Monitor.CheckWorker` | models/monitor_model.py:11-13 | the record test agrees with the id test on the record's id |
| `MonitorModel.Monitor.CheckWorkerById` | models/monitor_model.py:15-17 | with entries keyed by their own ids, an id is known if and only if some stored record carries it |
| `MonitorModel.Monitor.RegisterWorker` | models/monitor_model.py:19-22 | the registry becomes `Registered` of the old one, keyed by id |
| `MonitorModel.Monitor.UpdateWorker` | models/monitor_model.py:24-26 | the registry becomes `Updated` of the old one, keyed by id |
| `MonitorService.RegStep` | monitor/monitor.py:82-87 | an unknown id is registered and exactly its command queue is appended to the declarations; a known id changes nothing; nothing is published |
| `MonitorService.StatusStep` | monitor/monitor.py:125-127 | a report for an unknown id changes nothing; a known id's entry is replaced by the report; the key set, the size and every other entry stay as they were |
| `MonitorService.CmdTick` | monitor/monitor.py:107-117 | on a non-empty registry, the chosen entry's `active` is negated, its other fields and all other entries stay as they were, and the toggled record is published to its command queue; on an empty registry nothing changes |
| `MonitorService.RegRepeatIsRegOnce` | monitor/monitor.py:82-84 | delivering one registration any number of times has the effect of delivering it once: one entry and at most one declaration |
| `MonitorService.ProvisionNew` | monitor/monitor.py:83-85 | registering a new id and declaring its announced command queue keeps the i-th declaration equal to the i-th registered record's queue, with distinct registered ids that are exactly the known ids |
| `MonitorService.InitialIsConsistentAndRoutable` | monitor/monitor.py:20-25 | the start-up state satisfies both invariants |
| `MonitorService.RegStepPreserves` | monitor/monitor.py:82-85 | registration keeps entries keyed by id, one declaration per registered worker that is the queue it announced, in registration order, and every stored or used command queue declared |
| `MonitorService.StatusStepPreserves` | monitor/monitor.py:125-126 | a report keeps the declarations tied one to one to the registered workers' announced queues; it keeps queues declared when it carries the registered command queue |
| `MonitorService.CmdTickPreserves` | monitor/monitor.py:107-111 | a command tick keeps both invariants, because its command goes to a queue that was declared at registration |
| `MonitorService.StatusCanRedirectCommands` | monitor/monitor.py:125-126 | a report naming another command queue leaves an entry whose queue was never declared |
| `MonitorService.ApplyPreserves` | monitor/monitor.py:78-127 | every handled event keeps entries keyed by id and keeps each registered worker's announced command queue declared exactly once, in registration order |
| `MonitorService.ApplyGrows` | monitor/monitor.py:78-127 | every handled event adds at most the id it announces and only appends to the logs |
| `MonitorService.RunConsistent` | monitor/monitor.py:78-127 | along any sequence of handled events, entries stay keyed by id and each registered worker has exactly one declaration, that of the command queue it announced |
| `MonitorService.RunGrowsOnlyByRegistration` | monitor/monitor.py:78-127 | along any sequence of events, the registry's ids are the initial ones plus the announced ones, and all logs only grow |
| `MonitorService.MonitorProcess.constructor` | monitor/monitor.py:20-25 | the monitor starts with an empty registry, empty logs, no registrations and the two shared queue names |
| `MonitorService.MonitorProcess.RegCallback` | monitor/monitor.py:78-87 | the registry, the logs and the registrations change exactly as `RegStep` says |
| `MonitorService.MonitorProcess.SendCmd` | monitor/monitor.py:96-102 | exactly one publish is appended, routed to the record's command queue and carrying the record |
| `MonitorService.MonitorProcess.CmdSenderTick` | monitor/monitor.py:105-117 | the registry and logs change exactly as `CmdTick` says, with the toggle applied in place in the registry |
| `MonitorService.MonitorProcess.SttCallback` | monitor/monitor.py:121-127 | the registry changes exactly as `StatusStep` says; the logs are untouched |
| `WorkerAgent.InitialWorker` | workers/worker.py:18-27 | a new worker has its host as id, the command queue `worker_cmd_` followed by that id, the shared queues, counter 0, the start time and active false |
| `WorkerAgent.StatusTick` | workers/worker.py:88-95 | an active worker's counter goes up by one and its timestamp becomes now; no other field changes; an inactive worker is unchanged; the counter never decreases |
| `WorkerAgent.StatusTicksCount` | workers/worker.py:86-97 | over any number of ticks, the counter grows by the tick count if active and by nothing otherwise; identity, addresses and `active` are unchanged |
| `WorkerAgent.SecondCommandIsNoOp` | workers/worker.py:72-77 | re-applying the command just applied overwrites and logs nothing |
| `WorkerAgent.Agent.constructor` | workers/worker.py:18-56 | the local record is the initial one, nothing has been published, and exactly the registration queue, the worker's own command queue `worker_cmd_<hostname>` and the status queue have been declared, in that order |
| `WorkerAgent.Agent.RegWorker` | workers/worker.py:60-65 | exactly one publish of the local record to its registration queue |
| `WorkerAgent.Agent.ReconcileFields` | workers/worker.py:72-77 | every listed field ends equal to the incoming one, unlisted fields are untouched, and the log is exactly the listed fields that differed, in order |
| `WorkerAgent.Agent.CmdCallback` | workers/worker.py:68-77 | the local record becomes equal to the command in every field, `id` and queue names included, and the log is exactly the fields that differed |
| `WorkerAgent.Agent.SttSenderTick` | workers/worker.py:86-97 | the local record becomes `StatusTick` of the old one, and exactly one status publish of it is appended if and only if it was active |
| `Protocol.FullCycle` | monitor/monitor.py:78-127 | announce, toggle, apply and report: the monitor ends with the worker active at counter 1, and only `active` was logged by the worker |
| `Protocol.StaleCommandRewindsCounter` | workers/worker.py:72-77 | a toggle built from the monitor's older copy carries counter 1 to a worker at counter 2 and so overwrites its counter |

## Left out

- Broker connections, credentials, consumers and the monitor's declaration of the two shared queues (monitor/monitor.py:27-75, 89-93, 129-133; workers/worker.py:29-51, 79-83): I/O against the broker client. A declaration and a publish are modelled only as appends to ghost logs. `MonitorState.declared` is the log of the monitor's command channel only, so the shared-queue declarations on its other two channels are not in it. The worker's three channels are modelled as one `Channel`, whose declaration log holds the worker's three start-up declarations (workers/worker.py:54-56). Delivery is modelled only in `Protocol`, as a value handed from one side to the other.
- Threads and the process-wide globals (monitor/monitor.py:135-141; workers/worker.py:100-106): concurrency. Each callback and each loop body is one atomic step. Interleavings inside a step, such as a status merge racing the toggle on the shared dictionary, are not modelled.
- The endless loops and `time.sleep`: one tick of each loop is modelled.
- `random.choice`: the chosen worker is the caller-supplied key `choice`. It is required to be registered when the registry is non-empty. The ordering of `list(monitor.workers.values())` is not modelled.
- `time.time()` and the float timestamp: the clock value is an `Instant` (an integer) passed in as `now`. Floating point is not modelled.
- The JSON encoding and decoding of records: a foreign library. Messages are the decoded records themselves. A decode failure would raise in the handler; that path is not modelled.
- Logging: only the list of fields `cmd_callback` logs as changed is kept, as `CmdCallback`'s result.
- The display names built from the last four characters of the host name: the name is a parameter of both constructors.
- The browser front end (monitor/frontend/main.js) and the HTTP façade it calls: monitor/frontend/main.js and the façade are not part of this model.

# aiotaskqueue worker core, modelled in Dafny

This project models the sequential bookkeeping of the aiotaskqueue worker
(`aiotaskqueue/worker.py`). The worker reads batches of broker messages and
forwards them to a dispatch channel. Executors take tasks from the channel
and run them. While a task runs, its id is kept in an in-flight registry.
After the call, the worker calls the completion or exception extensions.
On a timer, it renews the broker leases of everything in the registry.
The asyncio machinery (task groups, races between awaitables, channel
blocking) is abstracted away. The model states the order of effects and
proves them.

Files and modules:

- `types.dfy` (`TaskTypes`): task records, broker tasks, task definitions
  as ordered parameter lists, extensions as sets of hook capabilities, the
  execution context, and call outcomes.
- `extensions.dfy` (`Extensions`): the three order-preserving capability
  filters built in `AsyncWorker.__init__`.
- `injection.dfy` (`Injection`): `_dependencies_to_inject` and the
  `setdefault` loop of `_call_task_fn`.
- `traces.dfy` (`Traces`): the event type of the worker's observable
  effects, the traces each piece of the worker appends to the log, and the
  lemmas about those traces.
- `worker.dfy` (`Worker`): the `AsyncWorker` class. It holds the
  `_active_tasks` map, the stop flag, the channel (as the sequence of
  everything sent) and a ghost event log. Its methods are the read-loop
  body, the read loop, one `_worker` iteration, `_call_task_fn`, `stop` and
  one lease-renewal iteration. Some methods are proved against the trace
  functions of `Traces`: `HandleBatch`, `IntakeRound`, `RunIntake`, the two
  hook loops, `FinishTask` and `ProcessTask`. `CallTaskFn` is proved
  against `Injection.CallResult`. `Stop`, `Release`, `RenewLeases` and the
  constructor state their new state directly.
- `scenarios.dfy` (`Scenarios`): concrete scenarios on the `test-task` and
  `task-with-params` fixtures of `tests/tasks.py`, proved by assertions.

Foreign code appears as parameters or log events:

- Deserialization and the middleware stack (with the task function inside
  it) are function-valued parameters of `CallTaskFn`.
- The broker's `ack`, `ack_context` commit and `tasks_healthcheck` calls
  are events in the log. So are the result backend's `set` and the hook
  calls.
- The outcome of each read-versus-stop race is an input (`ReadRace`).

Three behaviours of the code are easy to misread, and the model keeps them
as written:

- **Exhausted messages are forwarded.** Lines 131-137 ack a message whose
  `requeue_count >= max_delivery_attempts` and then send it to the channel
  anyway, as there is no `continue`. The model acks and forwards
  (`MessageEvents`, `IntakeForwardsAll`).
- **An unknown task name escapes.** The definition lookup on line 169 sits
  outside the `try`. So the `KeyError` leaves `_worker`, no exception hook
  runs, and the registry entry stays (`ProcessTask`).
- **A completed read is forwarded after a stop.** The stop flag is checked
  on line 139, after the batch. So a read that completed is handled in full
  even if the flag was set meanwhile. `RunIntake` forwards such a batch and
  then ends.

## Model

| member | source | states |
|---|---|---|
| Extensions.WithCapabilityInOrder | aiotaskqueue/worker.py:73-81 | each hook list consists of exactly the configured extensions with that capability, each at a strictly increasing configuration position, and every capable position appears |
| Extensions.WithCapabilityMembers | aiotaskqueue/worker.py:73-81 | an extension is in a hook list iff it is configured and has that capability, so one with several capabilities is in each matching list |
| Extensions.WithCapabilityExtremes | aiotaskqueue/worker.py:73-81 | no extension with the capability gives an empty list; all having it gives the whole configured list |
| Injection.InjectableParamsExact | aiotaskqueue/worker.py:39-44 | a name is a key iff some parameter has that name and an annotation in `types`, and it maps to that parameter's annotation |
| Injection.OnlyContextInjectable | aiotaskqueue/worker.py:208-211 | with the types `_call_task_fn` asks for, every dependency is annotated with the context type |
| Injection.DependenciesToInject | aiotaskqueue/worker.py:39-44 | the loop over the signature builds exactly the name-to-annotation map of the parameters whose annotation is in `types` |
| Injection.InjectDependencies | aiotaskqueue/worker.py:208-216 | fails, with `ValueError`, iff some dependency is not the context type; otherwise the keys are the caller's plus the dependencies, caller values are kept, and each missing dependency gets the shared context |
| Injection.InjectionUnique | aiotaskqueue/worker.py:208-216 | the completed keywords are determined by the caller's keywords, the dependencies and the context, whatever order the dictionary is visited in |
| Traces.IntakeForwardsAll | aiotaskqueue/worker.py:130-137 | handling a batch sends every message of the batch to the channel, in batch order, exhausted or not |
| Traces.IntakeAckPrecedesDispatch | aiotaskqueue/worker.py:130-137 | a batch's effects are acks and sends only; each ack is of an exhausted message and immediately followed by its send; each exhausted message's send is immediately preceded by its ack |
| Traces.RoundsForwardAll | aiotaskqueue/worker.py:120-140 | over successive rounds the channel receives every message of every completed read, in order, and nothing from abandoned reads |
| Traces.ExceptionHookCallsAt | aiotaskqueue/worker.py:176-182 | the exception-hook loop calls each hook once, in list order, with the same task, definition, context and exception |
| Traces.CompletionHookCallsAt | aiotaskqueue/worker.py:190-196 | the completion-hook loop calls each hook once, in list order, with the same task, definition, context and result |
| Traces.FailedTaskEffects | aiotaskqueue/worker.py:175-185 | after a raising call, every exception hook runs once in order with that exception, then the registry entry is removed, and nothing else happens |
| Traces.CompletedTaskEffects | aiotaskqueue/worker.py:171-196 | after a returning call the ack commits and the entry is removed; then, with a backend, the result is stored under the task id; then every completion hook runs once in order with that same result |
| Traces.OutcomesExclusive | aiotaskqueue/worker.py:170-196 | a failed task has no ack commit, result write or completion hook; a successful task has no exception hook call |
| Worker.AsyncWorker.constructor | aiotaskqueue/worker.py:48-83 | the publisher and context are built from the arguments, the three hook lists are the capability filters of the configured extensions, and the registry starts empty with the flag clear |
| Worker.AsyncWorker.Stop | aiotaskqueue/worker.py:162-163 | the stop flag is set afterwards and nothing else changes |
| Worker.AsyncWorker.HandleBatch | aiotaskqueue/worker.py:130-137 | the channel grows by exactly the batch, and the log grows by the batch's intake trace |
| Worker.AsyncWorker.IntakeRound | aiotaskqueue/worker.py:120-140 | one round forwards its completed batch, or nothing when the stop event won; the flag is then set iff it was set before or the round stopped, and the loop ends iff the flag is set |
| Worker.AsyncWorker.RunIntake | aiotaskqueue/worker.py:120-140 | the loop goes through rounds up to and including the first by whose end the flag is set, or through all of them; the channel and log grow by exactly what those rounds forward and do |
| Worker.AsyncWorker.CallTaskFn | aiotaskqueue/worker.py:198-226 | the call needs the task to be in the in-flight registry; a deserialization error is the outcome; otherwise the outcome is the middleware stack over the execution extensions, called with the positional arguments and the keywords completed with the shared context |
| Worker.AsyncWorker.Release | aiotaskqueue/worker.py:184-185 | the id is removed from the registry, other entries are unchanged, and removing an absent id changes nothing |
| Worker.AsyncWorker.RunExceptionHooks | aiotaskqueue/worker.py:176-182 | the log grows by one call of each exception hook, in list order |
| Worker.AsyncWorker.RunCompletionHooks | aiotaskqueue/worker.py:190-196 | the log grows by one call of each completion hook, in list order |
| Worker.AsyncWorker.FinishTask | aiotaskqueue/worker.py:170-196 | after the call, the registry loses the task's id and the log grows by the outcome's finishing trace |
| Worker.AsyncWorker.ProcessTask | aiotaskqueue/worker.py:165-196 | the task is registered first and stays registered during the call, which needs that; an unknown task name escapes as `KeyError` with the entry left in place; otherwise the outcome is the call's result, the entry is removed whatever the outcome, other entries are unchanged, and the effects are the finishing trace |
| Worker.AsyncWorker.RenewLeases | aiotaskqueue/worker.py:228-243 | a healthcheck with all registry values is issued iff the registry is non-empty, and the loop returns iff the flag is set |

## Left out

- Concurrency is not modelled: the task group, the `concurrency` executors
  (kept as a constant), `asyncio.wait` races, channel capacity and
  backpressure, and `recv.clone()`. The channel is the sequence of
  everything sent to it. Each race's outcome is an input.
- Channel receive and close, `async for` over the channel, and the
  shutdown sequence in `_shutdown_tasks` are not modelled. The shutdown
  sequence covers the deadline, the forced cancel and the float
  `total_seconds()` values. These are scheduling and time behaviour.
- Signal handlers are not modelled (OS behaviour). A signal calls
  `Stop`, which is modelled.
- The broker's maintenance task and the sleep between healthchecks are not
  modelled. `RenewLeases` is one iteration of the renewal loop; its wait is
  represented by reading the stop flag.
- Foreign code is represented, not modelled:
  - `deserialize_task` and `MiddlewareStack` are abstract total functions.
  - Extension hooks, the broker and the result backend under `ack_context`
    appear only as events.
  - The ack context is taken to commit on normal exit and to do nothing on
    an exception.
  - Exceptions raised by the broker, the result backend or the hooks
    themselves are not modelled.
- `functools.lru_cache` (runtime memoisation) and `inspect.signature` are
  not modelled. A signature is an explicit ordered parameter list, with
  distinct names.
- RenewLeases: the healthcheck arguments form a set of the registry values.
  The source passes them in dict order, which the model does not keep.
- CallTaskFn: the `ValueError` branch of the injection loop is unreachable
  here, because the only injectable type requested is the execution context.
  `InjectDependencies` models that branch for an arbitrary dependency map.
- `aiotaskqueue/_util.py` is not part of this model.

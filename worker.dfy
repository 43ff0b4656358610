/** The worker object: its configuration-derived constants, the in-flight
    registry, the stop flag, the dispatch channel and a ghost log of the
    observable effects its operations have on the broker, the result backend
    and the extensions. */
module Worker {
  import opened TaskTypes
  import opened Extensions
  import opened Injection
  import opened Traces

  /** How one iteration of `_worker` ends: the task was handled (its call
      returned or raised, and the exception was dealt with by the hooks), or
      an exception escaped the iteration. */
  datatype TaskStatus = Handled(outcome: Outcome) | Escaped(error: Error)

  class AsyncWorker {
    const broker: string
    const publisher: Publisher
    const resultBackend: Option<string>
    const tasks: map<string, TaskDefinition>
    const configuration: Configuration
    const concurrency: int
    const executionContext: ExecutionContext
    const onTaskException: seq<Extension>
    const onTaskCompletion: seq<Extension>
    const onTaskExecution: seq<Extension>

    /** `_active_tasks`: the in-flight registry, keyed by task id. */
    var activeTasks: map<string, BrokerTask>
    /** `_stop_event`: once set, never cleared. */
    var stopped: bool
    /** Everything sent to the dispatch channel, in send order. */
    var channel: seq<BrokerTask>
    /** The observable effects so far, in order. */
    ghost var log: seq<Event>

    ghost predicate Valid()
      reads this
    {
      && (forall name :: name in tasks ==> DistinctNames(tasks[name].params))
      && (forall id :: id in activeTasks ==> activeTasks[id].task.id == id)
    }

    /** `__init__`: build the publisher and the execution context from the
        constructor arguments and partition the configured extensions by
        capability. */
    constructor (broker: string, resultBackend: Option<string>, tasks: map<string, TaskDefinition>,
                 configuration: Configuration, concurrency: int)
      requires forall name :: name in tasks ==> DistinctNames(tasks[name].params)
      ensures Valid()
      ensures this.broker == broker && this.resultBackend == resultBackend && this.tasks == tasks
      ensures this.configuration == configuration && this.concurrency == concurrency
      ensures publisher == Publisher(broker, configuration)
      ensures executionContext == ExecutionContext(configuration, broker, publisher, resultBackend, tasks)
      ensures onTaskException == WithCapability(configuration.extensions, OnException)
      ensures onTaskCompletion == WithCapability(configuration.extensions, OnCompletion)
      ensures onTaskExecution == WithCapability(configuration.extensions, OnExecution)
      ensures activeTasks == map[] && !stopped && channel == [] && log == []
    {
      this.broker := broker;
      publisher := Publisher(broker, configuration);
      this.resultBackend := resultBackend;
      this.tasks := tasks;
      this.configuration := configuration;
      this.concurrency := concurrency;
      executionContext := ExecutionContext(configuration, broker, Publisher(broker, configuration), resultBackend, tasks);
      onTaskException := WithCapability(configuration.extensions, OnException);
      onTaskCompletion := WithCapability(configuration.extensions, OnCompletion);
      onTaskExecution := WithCapability(configuration.extensions, OnExecution);
      activeTasks := map[];
      stopped := false;
      channel := [];
      log := [];
    }

    /** `stop`: set the stop flag; setting it again changes nothing. */
    method Stop()
      modifies this`stopped
      ensures stopped
    {
      stopped := true;
    }

    // -------------------------------------------------------------------------
    // Intake

    /** The body of the read loop for one batch: ack each exhausted message,
        then send every message, exhausted or not, to the dispatch channel. */
    method HandleBatch(batch: seq<BrokerTask>)
      modifies this`channel, this`log
      ensures channel == old(channel) + batch
      ensures log == old(log) + IntakeTrace(batch, configuration.maxDeliveryAttempts)
    {
      for i := 0 to |batch|
        invariant channel == old(channel) + batch[..i]
        invariant log == old(log) + IntakeTrace(batch[..i], configuration.maxDeliveryAttempts)
      {
        assert batch[..i + 1][..i] == batch[..i];
        var message := batch[i];
        if message.task.requeueCount >= configuration.maxDeliveryAttempts {
          log := log + [Acked(message)];
        }
        channel := channel + [message];
        log := log + [Dispatched(message)];
      }
      assert batch[..|batch|] == batch;
    }

    /** One iteration of the read loop of `run`, given how its race between
        the read and the stop event ended. If the stop event won, the read is
        cancelled and nothing is forwarded; otherwise the whole batch is
        handled. The result says whether the loop ends here, which is when the
        stop flag is set by the end of the iteration. */
    method IntakeRound(round: ReadRace) returns (stop: bool)
      modifies this`channel, this`log, this`stopped
      ensures channel == old(channel) + BatchOf(round)
      ensures log == old(log) + IntakeTrace(BatchOf(round), configuration.maxDeliveryAttempts)
      ensures stopped == (old(stopped) || StopsIntake(round))
      ensures stop == stopped
    {
      if round.Abandoned? {
        // the stop event can only win once the flag is set
        Stop();
        assert IntakeTrace([], configuration.maxDeliveryAttempts) == [];
        return true;
      }
      HandleBatch(round.batch);
      if round.stopMeanwhile {
        Stop();
      }
      stop := stopped;
    }

    /** The read loop of `run` over the outcomes of its successive rounds:
        it forwards every completed batch in full and ends after the first
        round by whose end the stop flag is set. The result is the number of
        rounds the loop went through. */
    method RunIntake(rounds: seq<ReadRace>) returns (n: nat)
      modifies this`channel, this`log, this`stopped
      ensures LoopEndsAt(rounds, old(stopped), stopped, n)
      ensures channel == old(channel) + Forwarded(rounds[..n])
      ensures log == old(log) + RoundsTrace(rounds[..n], configuration.maxDeliveryAttempts)
    {
      n := 0;
      while n < |rounds|
        invariant n <= |rounds|
        invariant channel == old(channel) + Forwarded(rounds[..n])
        invariant log == old(log) + RoundsTrace(rounds[..n], configuration.maxDeliveryAttempts)
        invariant stopped == old(stopped) && (0 < n ==> !stopped)
        invariant forall k :: 0 <= k < n ==> !StopsIntake(rounds[k])
      {
        RoundsStep(rounds, n, configuration.maxDeliveryAttempts);
        var stop := IntakeRound(rounds[n]);
        ConcatAssoc(old(channel), Forwarded(rounds[..n]), BatchOf(rounds[n]));
        ConcatAssoc(old(log), RoundsTrace(rounds[..n], configuration.maxDeliveryAttempts),
                    IntakeTrace(BatchOf(rounds[n]), configuration.maxDeliveryAttempts));
        n := n + 1;
        if stop {
          EndsAtStop(rounds, old(stopped), n);
          return;
        }
      }
      EndsExhausted(rounds, old(stopped));
    }

    // -------------------------------------------------------------------------
    // The per-task pipeline

    /** `_call_task_fn`: deserialize the arguments, complete the keywords with
        the injected execution context and call the task through the
        middleware stack of the execution extensions. Deserialization and the
        middleware stack are supplied as functions. The call runs only while
        the task is in the in-flight registry. */
    method CallTaskFn(task: TaskRecord, definition: TaskDefinition,
                      deserialize: (TaskDefinition, TaskRecord) -> Result<Args, Error>,
                      invoke: (seq<Extension>, TaskDefinition, seq<Value>, map<string, Value>, ExecutionContext) -> Outcome)
      returns (r: Outcome)
      requires DistinctNames(definition.params)
      requires task.id in activeTasks
      ensures CallResult(task, definition, deserialize, invoke, onTaskExecution, executionContext, r)
    {
      var parsed := deserialize(definition, task);
      if parsed.Failure? {
        return Failure(parsed.error);
      }
      var args := parsed.value;
      var deps := DependenciesToInject(definition.params, INJECTABLE_TYPES);
      OnlyContextInjectable(definition.params);
      var kwargs := InjectDependencies(args.keywords, deps, executionContext);
      assert kwargs.Success?;
      r := invoke(onTaskExecution, definition, args.positional, kwargs.value, executionContext);
    }

    /** Remove a task from the in-flight registry, as `pop(id, None)` does:
        removing an id that is not there changes nothing. */
    method Release(id: string)
      requires Valid()
      modifies this`activeTasks, this`log
      ensures Valid()
      ensures activeTasks == old(activeTasks) - {id}
      ensures id !in old(activeTasks) ==> activeTasks == old(activeTasks)
      ensures log == old(log) + [Released(id)]
    {
      activeTasks := activeTasks - {id};
      log := log + [Released(id)];
    }

    /** Call every exception hook, in list order, with the same arguments. */
    method RunExceptionHooks(task: TaskRecord, definition: TaskDefinition, e: Error)
      modifies this`log
      ensures log == old(log) + ExceptionHookCalls(onTaskException, task, definition, executionContext, e)
    {
      for i := 0 to |onTaskException|
        invariant log == old(log) + ExceptionHookCalls(onTaskException[..i], task, definition, executionContext, e)
      {
        assert onTaskException[..i + 1][..i] == onTaskException[..i];
        log := log + [ExceptionHookCalled(onTaskException[i], task, definition, executionContext, e)];
      }
      assert onTaskException[..|onTaskException|] == onTaskException;
    }

    /** Call every completion hook, in list order, with the same arguments. */
    method RunCompletionHooks(task: TaskRecord, definition: TaskDefinition, v: Value)
      modifies this`log
      ensures log == old(log) + CompletionHookCalls(onTaskCompletion, task, definition, executionContext, v)
    {
      for i := 0 to |onTaskCompletion|
        invariant log == old(log) + CompletionHookCalls(onTaskCompletion[..i], task, definition, executionContext, v)
      {
        assert onTaskCompletion[..i + 1][..i] == onTaskCompletion[..i];
        log := log + [CompletionHookCalled(onTaskCompletion[i], task, definition, executionContext, v)];
      }
      assert onTaskCompletion[..|onTaskCompletion|] == onTaskCompletion;
    }

    /** What `_worker` does once the call has returned or raised. On an
        exception: the exception hooks, then the `finally` removal. On a
        return: the ack context commits, the `finally` removal, the result
        write when there is a result backend, then the completion hooks. */
    method FinishTask(bt: BrokerTask, definition: TaskDefinition, outcome: Outcome)
      requires Valid()
      modifies this`activeTasks, this`log
      ensures Valid()
      ensures activeTasks == old(activeTasks) - {bt.task.id}
      ensures log == old(log) + FinishTrace(bt, definition, outcome, executionContext,
                                            resultBackend, onTaskException, onTaskCompletion)
    {
      var task := bt.task;
      match outcome {
        case Failure(e) =>
          RunExceptionHooks(task, definition, e);
          Release(task.id);
          assert log == old(log) + (ExceptionHookCalls(onTaskException, task, definition, executionContext, e)
                                    + [Released(task.id)]);
        case Success(v) =>
          log := log + [AckCommitted(bt)];
          Release(task.id);
          if resultBackend.Some? {
            log := log + [ResultStored(task.id, v)];
          }
          assert log == old(log) + ([AckCommitted(bt), Released(task.id)] + StoreTrace(resultBackend, task.id, v));
          RunCompletionHooks(task, definition, v);
      }
    }

    /** One iteration of `_worker` for a received message: register it, look
        up its definition (outside the `try`, so an unknown name escapes with
        the entry still registered), run the call inside the ack context, and
        finish as `FinishTask` describes. */
    method ProcessTask(bt: BrokerTask,
                       deserialize: (TaskDefinition, TaskRecord) -> Result<Args, Error>,
                       invoke: (seq<Extension>, TaskDefinition, seq<Value>, map<string, Value>, ExecutionContext) -> Outcome)
      returns (status: TaskStatus)
      requires Valid()
      modifies this`activeTasks, this`log
      ensures Valid()
      ensures status.Escaped? <==> bt.task.taskName !in tasks
      ensures status.Escaped? ==>
        && status.error == KeyError(bt.task.taskName)
        && activeTasks == old(activeTasks)[bt.task.id := bt]
        && log == old(log) + [Registered(bt.task.id)]
      ensures status.Handled? ==>
        var definition := tasks[bt.task.taskName];
        && CallResult(bt.task, definition, deserialize, invoke, onTaskExecution, executionContext, status.outcome)
        && activeTasks == old(activeTasks) - {bt.task.id}
        && log == old(log) + [Registered(bt.task.id)]
                  + FinishTrace(bt, definition, status.outcome, executionContext,
                                resultBackend, onTaskException, onTaskCompletion)
    {
      var task := bt.task;
      activeTasks := activeTasks[task.id := bt];
      log := log + [Registered(task.id)];
      if task.taskName !in tasks {
        return Escaped(KeyError(task.taskName));
      }
      var definition := tasks[task.taskName];
      var outcome := CallTaskFn(task, definition, deserialize, invoke);
      FinishTask(bt, definition, outcome);
      assert activeTasks == old(activeTasks)[task.id := bt] - {task.id};
      status := Handled(outcome);
    }

    // -------------------------------------------------------------------------
    // Lease renewal

    /** One iteration of `_claim_pending_tasks`: issue a healthcheck for all
        in-flight tasks when there is at least one, then wait for the interval
        or the stop event, and report whether the loop returns. */
    method RenewLeases() returns (exit: bool)
      modifies this`log
      ensures log == old(log) + (if activeTasks != map[] then [HealthcheckIssued(activeTasks.Values)] else [])
      ensures exit == stopped
    {
      if activeTasks != map[] {
        log := log + [HealthcheckIssued(activeTasks.Values)];
      }
      exit := stopped;
    }
  }
}

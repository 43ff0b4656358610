/** The observable effects of the worker, recorded as an event log, and the
    traces that the intake loop and the per-task pipeline append to it. */
module Traces {
  import opened TaskTypes

  /** One observable effect of the worker. */
  datatype Event =
    | Acked(message: BrokerTask)          // `broker.ack` in the intake loop
    | Dispatched(message: BrokerTask)     // `send.send` onto the dispatch channel
    | Registered(id: string)              // insertion into the in-flight registry
    | Released(id: string)                // `pop(id, None)` from the in-flight registry
    | AckCommitted(message: BrokerTask)   // the ack context exited normally
    | ExceptionHookCalled(hook: Extension, task: TaskRecord, definition: TaskDefinition,
                          context: ExecutionContext, exception: Error)
    | ResultStored(taskId: string, value: Value) // `result_backend.set`
    | CompletionHookCalled(hook: Extension, task: TaskRecord, definition: TaskDefinition,
                           context: ExecutionContext, result: Value)
    | HealthcheckIssued(inFlight: set<BrokerTask>) // `broker.tasks_healthcheck`

  /** Concatenation regroups; stated once so that logs can be extended
      without element-wise reasoning about events. */
  lemma ConcatAssoc<T>(a: seq<T>, b: seq<T>, c: seq<T>)
    ensures (a + b) + c == a + (b + c)
  {
  }

  // ---------------------------------------------------------------------------
  // Projection of a log onto the dispatch channel

  /** The messages a log sends to the dispatch channel, in log order. */
  function Dispatches(log: seq<Event>): seq<BrokerTask>
  {
    if log == [] then []
    else Dispatches(log[..|log| - 1]) + (if log[|log| - 1].Dispatched? then [log[|log| - 1].message] else [])
  }

  lemma {:induction false} DispatchesAppend(a: seq<Event>, b: seq<Event>)
    ensures Dispatches(a + b) == Dispatches(a) + Dispatches(b)
    decreases |b|
  {
    if b == [] {
      assert a + b == a;
    } else {
      var b' := b[..|b| - 1];
      assert (a + b)[..|a + b| - 1] == a + b';
      DispatchesAppend(a, b');
    }
  }

  // ---------------------------------------------------------------------------
  // The intake loop

  /** The delivery-attempt limit has been reached. */
  predicate Exhausted(m: BrokerTask, maxDeliveryAttempts: int)
  {
    m.task.requeueCount >= maxDeliveryAttempts
  }

  /** The effects of one message of a batch: acked when exhausted, then sent
      to the dispatch channel in every case. */
  function MessageEvents(m: BrokerTask, maxDeliveryAttempts: int): seq<Event>
  {
    (if Exhausted(m, maxDeliveryAttempts) then [Acked(m)] else []) + [Dispatched(m)]
  }

  /** The effects of handling a whole batch, message by message. */
  function IntakeTrace(batch: seq<BrokerTask>, maxDeliveryAttempts: int): seq<Event>
  {
    if batch == [] then []
    else IntakeTrace(batch[..|batch| - 1], maxDeliveryAttempts) + MessageEvents(batch[|batch| - 1], maxDeliveryAttempts)
  }

  /** Every message of a batch is forwarded to the channel, in batch order,
      exhausted or not. */
  lemma {:induction false} IntakeForwardsAll(batch: seq<BrokerTask>, maxDeliveryAttempts: int)
    ensures Dispatches(IntakeTrace(batch, maxDeliveryAttempts)) == batch
  {
    if batch != [] {
      var init, m := batch[..|batch| - 1], batch[|batch| - 1];
      var t0 := IntakeTrace(init, maxDeliveryAttempts);
      var x := MessageEvents(m, maxDeliveryAttempts);
      assert IntakeTrace(batch, maxDeliveryAttempts) == t0 + x;
      IntakeForwardsAll(init, maxDeliveryAttempts);
      assert Dispatches(x) == [m] by {
        var head: seq<Event> := if Exhausted(m, maxDeliveryAttempts) then [Acked(m)] else [];
        assert x == head + [Dispatched(m)];
        DispatchesAppend(head, [Dispatched(m)]);
        assert [Dispatched(m)][..0] == [];
        if head != [] { assert head[..0] == []; }
      }
      DispatchesAppend(t0, x);
      assert batch == init + [m];
    }
  }

  /** A trace consists of acks and dispatches only; an ack is always of an
      exhausted message and is immediately followed by that message's
      dispatch; and every exhausted message's dispatch is immediately
      preceded by its ack. */
  ghost predicate AckedRightBeforeSent(t: seq<Event>, maxDeliveryAttempts: int)
  {
    && (forall k :: 0 <= k < |t| ==> t[k].Acked? || t[k].Dispatched?)
    && (forall k :: 0 <= k < |t| && t[k].Acked? ==>
          Exhausted(t[k].message, maxDeliveryAttempts) && k + 1 < |t| && t[k + 1] == Dispatched(t[k].message))
    && (forall k :: 0 <= k < |t| && t[k].Dispatched? && Exhausted(t[k].message, maxDeliveryAttempts) ==>
          0 < k && t[k - 1] == Acked(t[k].message))
  }

  /** Within a batch, exactly the exhausted messages are acked, each right
      before it is sent. */
  lemma {:induction false} IntakeAckPrecedesDispatch(batch: seq<BrokerTask>, maxDeliveryAttempts: int)
    ensures AckedRightBeforeSent(IntakeTrace(batch, maxDeliveryAttempts), maxDeliveryAttempts)
  {
    if batch != [] {
      var init, m := batch[..|batch| - 1], batch[|batch| - 1];
      IntakeAckPrecedesDispatch(init, maxDeliveryAttempts);
      var t0 := IntakeTrace(init, maxDeliveryAttempts);
      var e := MessageEvents(m, maxDeliveryAttempts);
      var t := IntakeTrace(batch, maxDeliveryAttempts);
      assert t == t0 + e;
      assert t0 != [] ==> t0[|t0| - 1].Dispatched?;
      var n := |t0|;
      if Exhausted(m, maxDeliveryAttempts) {
        assert e == [Acked(m), Dispatched(m)];
        assert t[n] == Acked(m) && t[n + 1] == Dispatched(m) && |t| == n + 2;
      } else {
        assert e == [Dispatched(m)];
        assert t[n] == Dispatched(m) && |t| == n + 1;
      }
      forall k | 0 <= k < |t|
        ensures t[k].Acked? || t[k].Dispatched?
      {
        if k < n { assert t[k] == t0[k]; }
      }
      forall k | 0 <= k < |t| && t[k].Acked?
        ensures Exhausted(t[k].message, maxDeliveryAttempts) && k + 1 < |t| && t[k + 1] == Dispatched(t[k].message)
      {
        if k < n {
          assert t[k] == t0[k];
          assert t[k + 1] == t0[k + 1];
        }
      }
      forall k | 0 <= k < |t| && t[k].Dispatched? && Exhausted(t[k].message, maxDeliveryAttempts)
        ensures 0 < k && t[k - 1] == Acked(t[k].message)
      {
        if k < n {
          assert t[k] == t0[k];
          assert t[k - 1] == t0[k - 1];
        }
      }
    }
  }

  /** How one round of the intake loop's race between a read and the stop
      event ended: the stop event won and the outstanding read was cancelled,
      or the read returned a batch (and a stop was or was not requested while
      the batch was being handled or during the yield after it). */
  datatype ReadRace = Abandoned | Completed(batch: seq<BrokerTask>, stopMeanwhile: bool)

  /** The round ends the intake loop. */
  predicate StopsIntake(r: ReadRace)
  {
    r.Abandoned? || r.stopMeanwhile
  }

  function BatchOf(r: ReadRace): seq<BrokerTask>
  {
    if r.Completed? then r.batch else []
  }

  /** The messages the rounds send to the channel, round after round. */
  function Forwarded(rounds: seq<ReadRace>): seq<BrokerTask>
  {
    if rounds == [] then [] else Forwarded(rounds[..|rounds| - 1]) + BatchOf(rounds[|rounds| - 1])
  }

  function RoundsTrace(rounds: seq<ReadRace>, maxDeliveryAttempts: int): seq<Event>
  {
    if rounds == [] then []
    else RoundsTrace(rounds[..|rounds| - 1], maxDeliveryAttempts) + IntakeTrace(BatchOf(rounds[|rounds| - 1]), maxDeliveryAttempts)
  }

  /** After going through `n` of the `rounds` the read loop has ended where
      it must: at the first round by whose end the stop flag is set (set
      before the loop, so that the first round ends it, or by that round), or
      after the last round otherwise. `stoppedBefore` and `stoppedAfter` are
      the flag before and after the loop. */
  ghost predicate LoopEndsAt(rounds: seq<ReadRace>, stoppedBefore: bool, stoppedAfter: bool, n: nat)
  {
    && n <= |rounds|
    && (rounds != [] ==> 0 < n)
    && (forall k :: 0 <= k < n - 1 ==> !StopsIntake(rounds[k]))
    && (1 < n ==> !stoppedBefore)
    && (n < |rounds| ==> stoppedAfter)
    && (stoppedAfter <==> stoppedBefore || exists k :: 0 <= k < n && StopsIntake(rounds[k]))
  }

  /** The loop ends at round `n` once the flag is set there. */
  lemma EndsAtStop(rounds: seq<ReadRace>, stoppedBefore: bool, n: nat)
    requires 0 < n <= |rounds|
    requires forall k :: 0 <= k < n - 1 ==> !StopsIntake(rounds[k])
    requires 1 < n ==> !stoppedBefore
    requires stoppedBefore || StopsIntake(rounds[n - 1])
    ensures LoopEndsAt(rounds, stoppedBefore, true, n)
  {
  }

  /** The loop goes through all rounds when none of them sets the flag. */
  lemma EndsExhausted(rounds: seq<ReadRace>, stoppedBefore: bool)
    requires forall k :: 0 <= k < |rounds| ==> !StopsIntake(rounds[k])
    requires rounds != [] ==> !stoppedBefore
    ensures LoopEndsAt(rounds, stoppedBefore, stoppedBefore, |rounds|)
  {
  }

  /** Going through one more round appends that round's batch and effects. */
  lemma RoundsStep(rounds: seq<ReadRace>, n: nat, maxDeliveryAttempts: int)
    requires n < |rounds|
    ensures Forwarded(rounds[..n + 1]) == Forwarded(rounds[..n]) + BatchOf(rounds[n])
    ensures RoundsTrace(rounds[..n + 1], maxDeliveryAttempts)
            == RoundsTrace(rounds[..n], maxDeliveryAttempts) + IntakeTrace(BatchOf(rounds[n]), maxDeliveryAttempts)
  {
    assert rounds[..n + 1][..n] == rounds[..n];
  }

  /** Over several rounds, the channel receives every read message in
      order. */
  lemma {:induction false} RoundsForwardAll(rounds: seq<ReadRace>, maxDeliveryAttempts: int)
    ensures Dispatches(RoundsTrace(rounds, maxDeliveryAttempts)) == Forwarded(rounds)
  {
    if rounds != [] {
      var init := rounds[..|rounds| - 1];
      var b := BatchOf(rounds[|rounds| - 1]);
      RoundsForwardAll(init, maxDeliveryAttempts);
      DispatchesAppend(RoundsTrace(init, maxDeliveryAttempts), IntakeTrace(b, maxDeliveryAttempts));
      IntakeForwardsAll(b, maxDeliveryAttempts);
    }
  }

  // ---------------------------------------------------------------------------
  // The per-task pipeline

  /** Each exception hook called in list order with the same arguments. */
  function ExceptionHookCalls(hooks: seq<Extension>, task: TaskRecord, definition: TaskDefinition,
                              ctx: ExecutionContext, e: Error): seq<Event>
  {
    if hooks == [] then []
    else ExceptionHookCalls(hooks[..|hooks| - 1], task, definition, ctx, e)
         + [ExceptionHookCalled(hooks[|hooks| - 1], task, definition, ctx, e)]
  }

  /** Each completion hook called in list order with the same arguments. */
  function CompletionHookCalls(hooks: seq<Extension>, task: TaskRecord, definition: TaskDefinition,
                               ctx: ExecutionContext, v: Value): seq<Event>
  {
    if hooks == [] then []
    else CompletionHookCalls(hooks[..|hooks| - 1], task, definition, ctx, v)
         + [CompletionHookCalled(hooks[|hooks| - 1], task, definition, ctx, v)]
  }

  lemma {:induction false} ExceptionHookCallsAt(hooks: seq<Extension>, task: TaskRecord, definition: TaskDefinition,
                                                ctx: ExecutionContext, e: Error)
    ensures var t := ExceptionHookCalls(hooks, task, definition, ctx, e);
      |t| == |hooks| && forall k :: 0 <= k < |t| ==> t[k] == ExceptionHookCalled(hooks[k], task, definition, ctx, e)
  {
    if hooks != [] {
      ExceptionHookCallsAt(hooks[..|hooks| - 1], task, definition, ctx, e);
    }
  }

  lemma {:induction false} CompletionHookCallsAt(hooks: seq<Extension>, task: TaskRecord, definition: TaskDefinition,
                                                 ctx: ExecutionContext, v: Value)
    ensures var t := CompletionHookCalls(hooks, task, definition, ctx, v);
      |t| == |hooks| && forall k :: 0 <= k < |t| ==> t[k] == CompletionHookCalled(hooks[k], task, definition, ctx, v)
  {
    if hooks != [] {
      CompletionHookCallsAt(hooks[..|hooks| - 1], task, definition, ctx, v);
    }
  }

  /** The result write, made only when a result backend is configured. */
  function StoreTrace(resultBackend: Option<string>, id: string, v: Value): seq<Event>
  {
    if resultBackend.Some? then [ResultStored(id, v)] else []
  }

  /** What happens once the call returns or raises. On an exception the `except`
      clause calls the exception hooks and then the `finally` clause removes
      the registry entry. On success the ack context commits, the `finally`
      clause removes the entry, and only then is the result stored and are the
      completion hooks called. */
  function FinishTrace(bt: BrokerTask, definition: TaskDefinition, outcome: Outcome, ctx: ExecutionContext,
                       resultBackend: Option<string>, onException: seq<Extension>, onCompletion: seq<Extension>): seq<Event>
  {
    match outcome
    case Failure(e) =>
      ExceptionHookCalls(onException, bt.task, definition, ctx, e) + [Released(bt.task.id)]
    case Success(v) =>
      [AckCommitted(bt), Released(bt.task.id)] + StoreTrace(resultBackend, bt.task.id, v)
      + CompletionHookCalls(onCompletion, bt.task, definition, ctx, v)
  }

  /** A failing call: every exception hook runs once, in list order, with
      that exception, while the task is still registered; then the registry
      entry is removed. Nothing else happens: no acknowledgement, no result
      write, no completion hook. */
  lemma FailedTaskEffects(bt: BrokerTask, definition: TaskDefinition, e: Error, ctx: ExecutionContext,
                          resultBackend: Option<string>, onException: seq<Extension>, onCompletion: seq<Extension>)
    ensures var t := FinishTrace(bt, definition, Failure(e), ctx, resultBackend, onException, onCompletion);
      && |t| == |onException| + 1
      && (forall k :: 0 <= k < |onException| ==> t[k] == ExceptionHookCalled(onException[k], bt.task, definition, ctx, e))
      && t[|onException|] == Released(bt.task.id)
  {
    ExceptionHookCallsAt(onException, bt.task, definition, ctx, e);
  }

  /** A successful call: the ack context commits and the registry entry is
      removed; only after that is the result stored under the task id, when a
      result backend is configured, and then every completion hook runs once,
      in list order, with that same result. Nothing else happens: no
      exception hook runs. */
  lemma CompletedTaskEffects(bt: BrokerTask, definition: TaskDefinition, v: Value, ctx: ExecutionContext,
                             resultBackend: Option<string>, onException: seq<Extension>, onCompletion: seq<Extension>)
    ensures var t := FinishTrace(bt, definition, Success(v), ctx, resultBackend, onException, onCompletion);
      var stored := if resultBackend.Some? then 1 else 0;
      && |t| == 2 + stored + |onCompletion|
      && t[0] == AckCommitted(bt) && t[1] == Released(bt.task.id)
      && (resultBackend.Some? ==> t[2] == ResultStored(bt.task.id, v))
      && (forall k :: 0 <= k < |onCompletion| ==>
            t[2 + stored + k] == CompletionHookCalled(onCompletion[k], bt.task, definition, ctx, v))
  {
    CompletionHookCallsAt(onCompletion, bt.task, definition, ctx, v);
  }

  /** Corollary: the two outcomes have disjoint effects. A failed task's trace
      holds no acknowledgement, result write or completion hook call; a
      successful task's trace holds no exception hook call. */
  lemma OutcomesExclusive(bt: BrokerTask, definition: TaskDefinition, outcome: Outcome, ctx: ExecutionContext,
                          resultBackend: Option<string>, onException: seq<Extension>, onCompletion: seq<Extension>)
    ensures var t := FinishTrace(bt, definition, outcome, ctx, resultBackend, onException, onCompletion);
      && (outcome.Failure? ==> forall k :: 0 <= k < |t| ==>
            !t[k].AckCommitted? && !t[k].ResultStored? && !t[k].CompletionHookCalled?)
      && (outcome.Success? ==> forall k :: 0 <= k < |t| ==> !t[k].ExceptionHookCalled?)
  {
    var t := FinishTrace(bt, definition, outcome, ctx, resultBackend, onException, onCompletion);
    match outcome
    case Failure(e) =>
      FailedTaskEffects(bt, definition, e, ctx, resultBackend, onException, onCompletion);
      forall k | 0 <= k < |t|
        ensures !t[k].AckCommitted? && !t[k].ResultStored? && !t[k].CompletionHookCalled?
      {
        if k < |onException| { assert t[k] == ExceptionHookCalled(onException[k], bt.task, definition, ctx, e); }
      }
    case Success(v) =>
      CompletedTaskEffects(bt, definition, v, ctx, resultBackend, onException, onCompletion);
      var stored := if resultBackend.Some? then 1 else 0;
      forall k | 0 <= k < |t|
        ensures !t[k].ExceptionHookCalled?
      {
        if k >= 2 + stored {
          assert t[2 + stored + (k - 2 - stored)] == CompletionHookCalled(onCompletion[k - 2 - stored], bt.task, definition, ctx, v);
        }
      }
  }
}

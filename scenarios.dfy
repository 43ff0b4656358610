/** Concrete scenarios of the worker model, proved by assertions, on the
    task fixtures `test-task` (no parameters) and `task-with-params`
    (`a: int, b: str`), with a maximum of three delivery attempts. */
module Scenarios {
  import opened TaskTypes
  import opened Extensions
  import opened Injection
  import opened Traces
  import opened Worker

  const NOOP := TaskDefinition("test-task", [])
  const WITH_PARAMS := TaskDefinition("task-with-params", [("a", Named("int")), ("b", Named("str"))])
  const REGISTRY := map["test-task" := NOOP, "task-with-params" := WITH_PARAMS]
  const AUDIT := Extension("audit", {OnException, OnCompletion})

  method NewWorker() returns (w: AsyncWorker)
    ensures fresh(w) && w.Valid()
    ensures w.configuration == Configuration(3, [AUDIT]) && w.resultBackend == Some("results")
    ensures w.tasks == REGISTRY
    ensures w.onTaskException == [AUDIT] && w.onTaskCompletion == [AUDIT] && w.onTaskExecution == []
    ensures w.activeTasks == map[] && !w.stopped && w.channel == [] && w.log == []
  {
    w := new AsyncWorker("broker", Some("results"), REGISTRY, Configuration(3, [AUDIT]), 2);
    assert [AUDIT][..0] == [];
    assert w.onTaskException == [AUDIT];
  }

  /** A first delivery is forwarded without an ack; a message redelivered
      three times is acked and still forwarded, after the first. */
  method IntakeScenario() {
    var w := NewWorker();
    var fresh1 := BrokerTask(TaskRecord("id-1", "test-task", [], 0), "1-0");
    var spent := BrokerTask(TaskRecord("id-2", "test-task", [], 3), "2-0");
    w.HandleBatch([fresh1, spent]);
    assert w.channel == [fresh1, spent];
    assert [fresh1, spent][..1] == [fresh1] && [fresh1][..0] == [];
    assert IntakeTrace([fresh1], 3) == [Dispatched(fresh1)];
    assert MessageEvents(spent, 3) == [Acked(spent), Dispatched(spent)];
    assert w.log == [Dispatched(fresh1), Acked(spent), Dispatched(spent)];
  }

  /** A read completed while a stop was requested is still forwarded; the
      loop then ends without going through the remaining round. */
  method StopScenario() {
    var w := NewWorker();
    var m := BrokerTask(TaskRecord("id-1", "test-task", [], 0), "1-0");
    var rounds := [Completed([m], true), Completed([m], false)];
    var n := w.RunIntake(rounds);
    assert StopsIntake(rounds[0]);
    assert n == 1;
    assert rounds[..1] == [Completed([m], true)];
    assert w.channel == [m];
    assert w.stopped;
  }

  /** `test-task` returns `None`: the ack commits, the registry entry is
      removed, the result is stored and the completion hook sees `None`. */
  method SuccessScenario() {
    var w := NewWorker();
    var bt := BrokerTask(TaskRecord("id-1", "test-task", [], 0), "1-0");
    var status := w.ProcessTask(bt, (d, t) => Success(Args([], map[])), (mw, d, a, k, c) => Success(NoneValue));
    assert status == Handled(Success(NoneValue)) by {
      var deps := InjectableParams(NOOP.params, INJECTABLE_TYPES);
      assert deps == map[];
      assert InjectionOf(map[], deps, w.executionContext, map[]);
    }
    assert [AUDIT][..0] == [];
    assert CompletionHookCalls([AUDIT], bt.task, NOOP, w.executionContext, NoneValue)
        == [CompletionHookCalled(AUDIT, bt.task, NOOP, w.executionContext, NoneValue)];
    assert w.log == [Registered("id-1"), AckCommitted(bt), Released("id-1"), ResultStored("id-1", NoneValue),
                     CompletionHookCalled(AUDIT, bt.task, NOOP, w.executionContext, NoneValue)];
    assert w.activeTasks == map[];
  }

  /** A raising task: the exception hook sees the error, the entry is removed,
      nothing is stored and no completion hook runs. */
  method FailureScenario() {
    var w := NewWorker();
    var bt := BrokerTask(TaskRecord("id-1", "test-task", [], 1), "1-0");
    var status := w.ProcessTask(bt, (d, t) => Success(Args([], map[])), (mw, d, a, k, c) => Failure(TaskError("boom")));
    assert status == Handled(Failure(TaskError("boom"))) by {
      var deps := InjectableParams(NOOP.params, INJECTABLE_TYPES);
      assert deps == map[];
      assert InjectionOf(map[], deps, w.executionContext, map[]);
    }
    assert [AUDIT][..0] == [];
    assert ExceptionHookCalls([AUDIT], bt.task, NOOP, w.executionContext, TaskError("boom"))
        == [ExceptionHookCalled(AUDIT, bt.task, NOOP, w.executionContext, TaskError("boom"))];
    assert w.log == [Registered("id-1"),
                     ExceptionHookCalled(AUDIT, bt.task, NOOP, w.executionContext, TaskError("boom")),
                     Released("id-1")];
    assert w.activeTasks == map[];
  }

  /** A task name the router does not know escapes with a `KeyError`, no hook
      runs and the entry stays registered; the next healthcheck covers it. */
  method UnknownTaskScenario() {
    var w := NewWorker();
    var bt := BrokerTask(TaskRecord("id-9", "missing-task", [], 0), "9-0");
    var status := w.ProcessTask(bt, (d, t) => Success(Args([], map[])), (mw, d, a, k, c) => Success(NoneValue));
    assert status == Escaped(KeyError("missing-task"));
    assert w.activeTasks == map["id-9" := bt];
    var exit := w.RenewLeases();
    assert w.activeTasks.Values == {bt} by {
      assert w.activeTasks["id-9"] == bt;
      forall v | v in w.activeTasks.Values
        ensures v == bt
      {
        var id :| id in w.activeTasks && w.activeTasks[id] == v;
      }
    }
    assert w.log == [Registered("id-9"), HealthcheckIssued({bt})];
    assert !exit;
  }

  /** `task-with-params` takes nothing injectable; adding a context parameter
      makes that one parameter injectable. */
  method DependenciesScenario() {
    var none := DependenciesToInject(WITH_PARAMS.params, INJECTABLE_TYPES);
    assert none == map[];
    var params := WITH_PARAMS.params + [("context", ExecutionContextType)];
    var deps := DependenciesToInject(params, INJECTABLE_TYPES);
    assert params[2].0 == "context";
    assert deps == map["context" := ExecutionContextType];
  }

  /** The context is injected when the caller did not supply that keyword,
      and a caller-supplied value is kept. */
  method InjectionScenario(ctx: ExecutionContext) {
    var deps := map["context" := ExecutionContextType];
    var kwargs := map["a" := IntValue(1), "b" := StrValue("x")];
    var filled := InjectDependencies(kwargs, deps, ctx);
    assert filled.Success? && filled.value["context"] == ContextValue(ctx);
    assert filled.value["a"] == IntValue(1);
    var kept := InjectDependencies(kwargs["context" := NoneValue], deps, ctx);
    assert kept.Success? && kept.value["context"] == NoneValue;
  }

  /** Any other injectable type is rejected. */
  method RejectionScenario(ctx: ExecutionContext) {
    var deps := map["b" := Named("str")];
    var rejected := InjectDependencies(map[], deps, ctx);
    assert deps["b"] != ExecutionContextType;
    assert rejected == Failure(ValueError);
  }
}

/** Values the worker handles: task records as read from the broker, task
    definitions from the router, the shared execution context and the values
    passed to and returned by task functions. */
module TaskTypes {

  datatype Option<+T> = None | Some(value: T)

  datatype Result<+T, +E> = Success(value: T) | Failure(error: E)

  /** The capabilities an extension object may implement; one object may
      implement several of them. */
  datatype Capability = OnException | OnCompletion | OnExecution

  /** A configured extension: an identity and the hook protocols it implements. */
  datatype Extension = Extension(name: string, caps: set<Capability>)

  /** The part of the configuration the worker consults:
      `configuration.task.max_delivery_attempts` and `configuration.extensions`. */
  datatype Configuration = Configuration(maxDeliveryAttempts: int, extensions: seq<Extension>)

  /** A decoded wire message: id, task name, serialized arguments, redelivery count. */
  datatype TaskRecord = TaskRecord(id: string, taskName: string, payload: seq<string>, requeueCount: int)

  /** A task record together with the broker's delivery metadata. */
  datatype BrokerTask = BrokerTask(task: TaskRecord, deliveryToken: string)

  /** The type annotation of a task function parameter. */
  datatype Annotation = ExecutionContextType | Named(typeName: string)

  /** A task function parameter: its name and its annotation, in signature order. */
  type Parameter = (string, Annotation)

  /** A registered task: its name and the parameter list of its function. */
  datatype TaskDefinition = TaskDefinition(name: string, params: seq<Parameter>)

  /** The publisher the worker builds from its broker and configuration. */
  datatype Publisher = Publisher(broker: string, configuration: Configuration)

  /** The immutable bundle of shared references injected into task functions.
      The broker and the result backend are represented by their handles. */
  datatype ExecutionContext = ExecutionContext(
    configuration: Configuration,
    broker: string,
    publisher: Publisher,
    resultBackend: Option<string>,
    tasks: map<string, TaskDefinition>)

  /** Arguments passed to, and results returned by, task functions. */
  datatype Value = NoneValue | IntValue(i: int) | StrValue(s: string) | ContextValue(context: ExecutionContext)

  /** Positional and keyword arguments produced by deserialization. */
  datatype Args = Args(positional: seq<Value>, keywords: map<string, Value>)

  /** The exceptions the core raises or propagates. */
  datatype Error =
    | ValueError                 // an injectable type other than ExecutionContext
    | KeyError(key: string)      // a task name the router does not know
    | TaskError(message: string) // anything raised by deserialization, middleware or the task body

  /** The outcome of one task call: its return value or the exception it raised. */
  type Outcome = Result<Value, Error>

  /** Parameter names of a Python signature are unique. */
  predicate DistinctNames(params: seq<Parameter>)
  {
    forall i, j :: 0 <= i < j < |params| ==> params[i].0 != params[j].0
  }
}

/** Dependency injection into task functions: which parameters request an
    injectable (`_dependencies_to_inject`) and how the keyword arguments are
    completed with the shared execution context (`_call_task_fn`). A
    function's signature is given as its ordered parameter list. */
module Injection {
  import opened TaskTypes

  /** The injectable types `_call_task_fn` asks for. */
  const INJECTABLE_TYPES: seq<Annotation> := [ExecutionContextType]

  /** The mapping from parameter name to annotation that the loop over the
      signature builds, keeping the parameters whose annotation is in `types`. */
  function InjectableParams(params: seq<Parameter>, types: seq<Annotation>): map<string, Annotation>
  {
    if params == [] then map[]
    else
      var last := params[|params| - 1];
      var deps := InjectableParams(params[..|params| - 1], types);
      if last.1 in types then deps[last.0 := last.1] else deps
  }

  /** The mapping holds exactly the names of the parameters whose annotation
      is in `types`, each mapped to that annotation; no other parameter appears. */
  lemma {:induction false} InjectableParamsExact(params: seq<Parameter>, types: seq<Annotation>)
    requires DistinctNames(params)
    ensures forall name :: name in InjectableParams(params, types) <==>
              exists i :: 0 <= i < |params| && params[i].0 == name && params[i].1 in types
    ensures forall i :: 0 <= i < |params| && params[i].1 in types ==>
              params[i].0 in InjectableParams(params, types) &&
              InjectableParams(params, types)[params[i].0] == params[i].1
  {
    if params != [] {
      var init, last := params[..|params| - 1], params[|params| - 1];
      assert forall i :: 0 <= i < |init| ==> init[i] == params[i];
      InjectableParamsExact(init, types);
      var deps := InjectableParams(params, types);
      forall name
        ensures name in deps <==> exists i :: 0 <= i < |params| && params[i].0 == name && params[i].1 in types
      {
        var initDeps := InjectableParams(init, types);
        if name in deps {
          if name == last.0 && last.1 in types {
            assert params[|params| - 1].0 == name;
          } else {
            assert name in initDeps;
            var i :| 0 <= i < |init| && init[i].0 == name && init[i].1 in types;
            assert params[i] == init[i];
          }
        }
        if exists i :: 0 <= i < |params| && params[i].0 == name && params[i].1 in types {
          var i :| 0 <= i < |params| && params[i].0 == name && params[i].1 in types;
          if i < |init| {
            assert init[i] == params[i];
            assert name in initDeps;
          }
        }
      }
    }
  }

  /** Every parameter the worker injects is annotated with the execution
      context type. */
  lemma OnlyContextInjectable(params: seq<Parameter>)
    requires DistinctNames(params)
    ensures forall name :: name in InjectableParams(params, INJECTABLE_TYPES) ==>
              InjectableParams(params, INJECTABLE_TYPES)[name] == ExecutionContextType
  {
    InjectableParamsExact(params, INJECTABLE_TYPES);
  }

  /** `_dependencies_to_inject`: walk the signature in order and record each
      parameter whose annotation is one of `types`. */
  method DependenciesToInject(params: seq<Parameter>, types: seq<Annotation>) returns (deps: map<string, Annotation>)
    requires DistinctNames(params)
    ensures deps == InjectableParams(params, types)
    ensures forall name :: name in deps <==>
              exists i :: 0 <= i < |params| && params[i].0 == name && params[i].1 in types
    ensures forall i :: 0 <= i < |params| && params[i].1 in types ==> deps[params[i].0] == params[i].1
  {
    deps := map[];
    for i := 0 to |params|
      invariant deps == InjectableParams(params[..i], types)
    {
      assert params[..i + 1][..i] == params[..i];
      var (key, annotation) := params[i];
      if annotation in types {
        deps := deps[key := annotation];
      }
    }
    assert params[..|params|] == params;
    InjectableParamsExact(params, types);
  }

  /** Every dependency to inject is one the worker knows how to supply. */
  predicate AllSupplied(deps: map<string, Annotation>)
  {
    forall name :: name in deps ==> deps[name] == ExecutionContextType
  }

  /** `injected` is `kwargs` completed, as by `setdefault`, with the shared
      context `ctx` for every dependency the caller did not already supply. */
  ghost predicate InjectionOf(kwargs: map<string, Value>, deps: map<string, Annotation>,
                              ctx: ExecutionContext, injected: map<string, Value>)
  {
    && injected.Keys == kwargs.Keys + deps.Keys
    && (forall name :: name in kwargs ==> injected[name] == kwargs[name])
    && (forall name :: name in deps && name !in kwargs ==> injected[name] == ContextValue(ctx))
  }

  /** The completed keyword arguments are determined by their inputs. */
  lemma InjectionUnique(kwargs: map<string, Value>, deps: map<string, Annotation>, ctx: ExecutionContext,
                        a: map<string, Value>, b: map<string, Value>)
    requires InjectionOf(kwargs, deps, ctx, a) && InjectionOf(kwargs, deps, ctx, b)
    ensures a == b
  {
    forall name | name in a
      ensures a[name] == b[name]
    {
      if name !in kwargs {
        assert name in deps;
      }
    }
  }

  /** The `setdefault` loop of `_call_task_fn`: supply the execution context
      for every dependency without overriding a caller-supplied keyword, and
      raise `ValueError` for any other injectable type. The dictionary is
      visited in an order the model leaves open; a raise discards the
      partially updated keywords, so the outcome does not depend on it. */
  method InjectDependencies(kwargs: map<string, Value>, deps: map<string, Annotation>, ctx: ExecutionContext)
    returns (r: Result<map<string, Value>, Error>)
    ensures r.Failure? <==> !AllSupplied(deps)
    ensures r.Failure? ==> r.error == ValueError
    ensures r.Success? ==> InjectionOf(kwargs, deps, ctx, r.value)
  {
    var injected := kwargs;
    var pending := deps.Keys;
    while pending != {}
      invariant pending <= deps.Keys
      invariant forall name :: name in deps && name !in pending ==> deps[name] == ExecutionContextType
      invariant injected.Keys == kwargs.Keys + (deps.Keys - pending)
      invariant forall name :: name in kwargs ==> injected[name] == kwargs[name]
      invariant forall name :: name in deps && name !in pending && name !in kwargs ==>
                  injected[name] == ContextValue(ctx)
      decreases pending
    {
      var key :| key in pending;
      if deps[key] != ExecutionContextType {
        return Failure(ValueError);
      }
      if key !in injected {
        injected := injected[key := ContextValue(ctx)];
      }
      pending := pending - {key};
    }
    return Success(injected);
  }

  /** What `_call_task_fn` returns: the deserialization error, or the result
      of the middleware stack over `middlewares` called with the deserialized positional
      arguments and the keywords completed with the shared context. */
  ghost predicate CallResult(task: TaskRecord, definition: TaskDefinition,
                             deserialize: (TaskDefinition, TaskRecord) -> Result<Args, Error>,
                             invoke: (seq<Extension>, TaskDefinition, seq<Value>, map<string, Value>, ExecutionContext) -> Outcome,
                             middlewares: seq<Extension>, ctx: ExecutionContext, r: Outcome)
  {
    match deserialize(definition, task)
    case Failure(e) => r == Failure(e)
    case Success(args) =>
      exists kw :: InjectionOf(args.keywords, InjectableParams(definition.params, INJECTABLE_TYPES), ctx, kw)
                   && r == invoke(middlewares, definition, args.positional, kw, ctx)
  }
}

/**
 * The container as a value: what `get`, `instantiate`, the two provider
 * strategies and registration do to a container's registry and context (and
 * to the listener log of the document), stated as functions. The class
 * `DS.Module` is proved to follow these functions step by step.
 */
module Resolution {
  import opened Values
  import opened Elements
  import opened Events
  import opened Definitions

  /** A container's state: `defs` is its registry of definitions, `ctx` its
      context of resolved and explicitly set values, `next` the identity the
      next instance it builds will get, and `log` the document's listeners. */
  datatype World = World(defs: map<string, Definition>, ctx: map<string, JsValue>, next: nat, log: seq<Listener>)

  /** The outcome of an operation and the state it leaves behind. */
  datatype Step<+T> = Step(result: Result<T>, world: World)

  /** A context entry counts only when its value is truthy. */
  predicate Cached(ctx: map<string, JsValue>, name: string) {
    name in ctx && Truthy(ctx[name])
  }

  /** Every definition is filed under its own name, as `service` and
      `controller` file them. */
  predicate KeyedByName(defs: map<string, Definition>) {
    forall k :: k in defs ==> defs[k].name == k
  }

  /** `value(name, v)`. */
  function SetValue(w: World, name: string, v: JsValue): World {
    w.(ctx := w.ctx[name := v])
  }

  /** `service(name, spec)` and `controller(name, spec)`: the definition
      replaces whatever was filed under its name; on an error nothing changes. */
  function Register(w: World, strategy: Strategy, name: JsValue, spec: Spec): World {
    match Define(strategy, name, spec)
    case Ok(d) => w.(defs := w.defs[d.name := d])
    case Err(_) => w
  }

  /** `DSService`: builds the instance from the dependency values alone and
      caches it in the context under the definition's name. */
  function ServiceStrategy(w: World, d: Definition, deps: seq<JsValue>): Step<JsValue> {
    var service := Inst(w.next, d.ctor, deps, []);
    Step(Ok(service), w.(ctx := w.ctx[d.name := service], next := w.next + 1))
  }

  /** `DSController`: finds the element among the arguments, builds a fresh
      instance from the dependency values and all the arguments, and binds
      its events on that element. Nothing is cached. */
  function ControllerStrategy(w: World, d: Definition, deps: seq<JsValue>, args: seq<JsValue>, query: Query): Step<JsValue> {
    match FirstElementIndex(args)
    case None => Step(Err(MissingElement), w)
    case Some(i) =>
      var controller := Inst(w.next, d.ctor, deps, args);
      var built := w.(next := w.next + 1);
      match d.ctor.events
      case None => Step(Ok(controller), built)
      case Some(events) =>
        var b := BindAll(events, args[i], controller, d.ctor.methods, query);
        var bound := built.(log := built.log + b.added);
        match b.failure
        case None => Step(Ok(controller), bound)
        case Some(h) => Step(Err(MissingHandler(h)), bound)
  }

  /** The definition's provider strategy. */
  function Provide(w: World, d: Definition, deps: seq<JsValue>, args: seq<JsValue>, query: Query): Step<JsValue> {
    match d.strategy
    case DSService => ServiceStrategy(w, d, deps)
    case DSController => ControllerStrategy(w, d, deps, args, query)
  }

  /** `instantiate(d, ...args)`: resolves the dependencies, then hands them to
      the definition's strategy. `fuel` bounds the depth of recursion. */
  function Instantiate(w: World, d: Definition, args: seq<JsValue>, query: Query, fuel: nat): (st: Step<JsValue>)
    decreases fuel, 1, 0
    ensures st.world.defs == w.defs && w.next <= st.world.next && w.log <= st.world.log
    ensures st.result.Ok? ==> st.result.value.Inst? && st.result.value.ctor == d.ctor
    ensures st.result.Ok? ==> w.next <= st.result.value.id < st.world.next
  {
    var resolved := ResolveDeps(w, d.deps, [], query, fuel);
    match resolved.result
    case Err(e) => Step(Err(e), resolved.world)
    case Ok(deps) => Provide(resolved.world, d, deps, args, query)
  }

  /** The dependency loop of `instantiate`, from the names not yet resolved:
      the context first, then a nested instantiation without arguments,
      otherwise an error naming the dependency. `acc` holds the values
      resolved so far. */
  function ResolveDeps(w: World, names: seq<string>, acc: seq<JsValue>, query: Query, fuel: nat): (st: Step<seq<JsValue>>)
    decreases fuel, 0, |names|
    ensures st.world.defs == w.defs && w.next <= st.world.next && w.log <= st.world.log
    ensures st.result.Ok? ==> |st.result.value| == |acc| + |names| && st.result.value[..|acc|] == acc
  {
    if names == [] then Step(Ok(acc), w)
    else
      var name := names[0];
      if Cached(w.ctx, name) then ResolveDeps(w, names[1..], acc + [w.ctx[name]], query, fuel)
      else if name in w.defs then
        if fuel == 0 then Step(Err(OutOfFuel), w)
        else
          var dep := Instantiate(w, w.defs[name], [], query, fuel - 1);
          match dep.result
          case Err(e) => Step(Err(e), dep.world)
          case Ok(v) =>
            assert (acc + [v])[..|acc|] == acc;
            ResolveDeps(dep.world, names[1..], acc + [v], query, fuel)
      else Step(Err(Unresolved(name)), w)
  }

  /** `get(name, ...args)`: a truthy context entry wins, then the registry,
      otherwise the name is not defined. */
  function Get(w: World, name: string, args: seq<JsValue>, query: Query, fuel: nat): Step<JsValue> {
    if Cached(w.ctx, name) then Step(Ok(w.ctx[name]), w)
    else if name in w.defs then Instantiate(w, w.defs[name], args, query, fuel)
    else Step(Err(NotDefined(name)), w)
  }
}

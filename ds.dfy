/**
 * The container object: a registry of definitions and a context of values,
 * both updated in place, and the instances it builds on demand.
 */
module DS {
  import opened Values
  import opened Elements
  import opened Events
  import opened Definitions
  import R = Resolution

  /** A dependency-injection container (`Module` in the source). */
  class Module {
    var definitions: map<string, Definition>
    var context: map<string, JsValue>
    /** The identity of the next instance this container builds. */
    var nextId: nat

    ghost predicate Valid()
      reads this
    {
      R.KeyedByName(definitions)
    }

    /** The container's state together with the document's listener log. */
    function Snapshot(dom: Dom): R.World
      reads this, dom
    {
      R.World(definitions, context, nextId, dom.listeners)
    }

    /** `new Module()`: an empty registry and an empty context. */
    constructor ()
      ensures Valid()
      ensures definitions == map[] && context == map[] && nextId == 0
    {
      definitions := map[];
      context := map[];
      nextId := 0;
    }

    /** `value(name, v)`: stores `v` in the context, whatever it was. */
    method Value(name: string, v: JsValue)
      requires Valid()
      modifies this
      ensures Valid()
      ensures context == old(context)[name := v]
      ensures definitions == old(definitions) && nextId == old(nextId)
    {
      context := context[name := v];
    }

    /** `service(name, spec)`: files the parsed definition under its name,
        replacing any earlier one, and builds nothing; an invalid name or
        spec changes nothing. */
    method Service(name: JsValue, spec: Spec) returns (r: Outcome)
      requires Valid()
      modifies this
      ensures Valid()
      ensures context == old(context) && nextId == old(nextId)
      ensures match Define(DSService, name, spec)
              case Ok(d) => r == Pass && definitions == old(definitions)[name.s := d]
              case Err(e) => r == Fail(e) && definitions == old(definitions)
    {
      var d := Define(DSService, name, spec);
      if d.Err? {
        return Fail(d.error);
      }
      definitions := definitions[name.s := d.value];
      return Pass;
    }

    /** `controller(name, spec)`: the same, with the controller strategy. */
    method Controller(name: JsValue, spec: Spec) returns (r: Outcome)
      requires Valid()
      modifies this
      ensures Valid()
      ensures context == old(context) && nextId == old(nextId)
      ensures match Define(DSController, name, spec)
              case Ok(d) => r == Pass && definitions == old(definitions)[name.s := d]
              case Err(e) => r == Fail(e) && definitions == old(definitions)
    {
      var d := Define(DSController, name, spec);
      if d.Err? {
        return Fail(d.error);
      }
      definitions := definitions[name.s := d.value];
      return Pass;
    }

    /** `DSService`. */
    method ProvideService(d: Definition, deps: seq<JsValue>, dom: Dom) returns (r: Result<JsValue>)
      requires Valid()
      modifies this
      ensures Valid()
      ensures R.Step(r, Snapshot(dom)) == R.ServiceStrategy(old(Snapshot(dom)), d, deps)
    {
      var service := Inst(nextId, d.ctor, deps, []);
      context := context[d.name := service];
      nextId := nextId + 1;
      return Ok(service);
    }

    /** `DSController`. */
    method ProvideController(d: Definition, deps: seq<JsValue>, args: seq<JsValue>, dom: Dom) returns (r: Result<JsValue>)
      requires Valid()
      modifies this, dom
      ensures Valid()
      ensures R.Step(r, Snapshot(dom)) == R.ControllerStrategy(old(Snapshot(dom)), d, deps, args, dom.query)
    {
      var el := GetFirstElementArgument(args);
      if el.Err? {
        return Err(el.error);
      }
      var controller := Inst(nextId, d.ctor, deps, args);
      nextId := nextId + 1;
      if d.ctor.events.Some? {
        var failure := AddEvents(d.ctor.events.value, el.value, controller, d.ctor.methods, dom);
        if failure.Some? {
          return Err(MissingHandler(failure.value));
        }
      }
      return Ok(controller);
    }

    /** `instantiate(d, ...args)`, resolved against this container. */
    method Instantiate(d: Definition, args: seq<JsValue>, dom: Dom, fuel: nat) returns (r: Result<JsValue>)
      requires Valid()
      modifies this, dom
      decreases fuel
      ensures Valid()
      ensures R.Step(r, Snapshot(dom)) == R.Instantiate(old(Snapshot(dom)), d, args, dom.query, fuel)
    {
      ghost var w0 := Snapshot(dom);
      var deps: seq<JsValue> := [];
      var i := 0;
      assert d.deps[i..] == d.deps;
      while i < |d.deps|
        invariant 0 <= i <= |d.deps|
        invariant R.ResolveDeps(w0, d.deps, [], dom.query, fuel) == R.ResolveDeps(Snapshot(dom), d.deps[i..], deps, dom.query, fuel)
      {
        var name := d.deps[i];
        assert d.deps[i..][1..] == d.deps[i + 1..];
        if name in context && Truthy(context[name]) {
          deps := deps + [context[name]];
        } else if name in definitions {
          if fuel == 0 {
            return Err(OutOfFuel);
          }
          var v := Instantiate(definitions[name], [], dom, fuel - 1);
          if v.Err? {
            return Err(v.error);
          }
          deps := deps + [v.value];
        } else {
          return Err(Unresolved(name));
        }
        i := i + 1;
      }
      if d.strategy == DSService {
        r := ProvideService(d, deps, dom);
      } else {
        r := ProvideController(d, deps, args, dom);
      }
    }

    /** `get(name, ...args)`. */
    method Get(name: string, args: seq<JsValue>, dom: Dom, fuel: nat) returns (r: Result<JsValue>)
      requires Valid()
      modifies this, dom
      ensures Valid()
      ensures R.Step(r, Snapshot(dom)) == R.Get(old(Snapshot(dom)), name, args, dom.query, fuel)
    {
      if name in context && Truthy(context[name]) {
        return Ok(context[name]);
      }
      if name in definitions {
        r := Instantiate(definitions[name], args, dom, fuel);
      } else {
        r := Err(NotDefined(name));
      }
    }
  }
}

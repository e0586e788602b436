/**
 * What the container guarantees, proved about the functions of `Resolution`:
 * lookup order, the singleton and fresh-instance contracts, dependency
 * resolution, laziness, and that nothing is rolled back.
 */
module Facts {
  import opened Values
  import opened Elements
  import opened Events
  import opened Definitions
  import opened Resolution

  /** A new container. */
  function Empty(): World {
    World(map[], map[], 0, [])
  }

  /** `v` is what a service filed under `k` leaves in the context. */
  predicate ServiceEntry(defs: map<string, Definition>, k: string, v: JsValue) {
    k in defs && defs[k].strategy == DSService && v.Inst? && v.ctor == defs[k].ctor
  }

  /** How resolution may change a container: the registry stays, identities
      only grow, listeners are only appended, no context entry disappears,
      every truthy entry keeps its exact value, and every entry that does
      change now holds an instance built by the service filed under that name. */
  ghost predicate Evolves(w: World, w': World) {
    && w'.defs == w.defs
    && w.next <= w'.next
    && w.log <= w'.log
    && (forall k :: k in w.ctx ==> k in w'.ctx)
    && (forall k :: Cached(w.ctx, k) ==> k in w'.ctx && w'.ctx[k] == w.ctx[k])
    && (forall k :: k in w'.ctx && (k !in w.ctx || w'.ctx[k] != w.ctx[k]) ==> ServiceEntry(w.defs, k, w'.ctx[k]))
  }

  /** What one strategy call may do to a container: the same as `Evolves`,
      except that only the entry `n` may change, whatever it held. */
  ghost predicate ChangesOnly(w: World, w': World, n: string) {
    && w'.defs == w.defs
    && w.next <= w'.next
    && w.log <= w'.log
    && (forall k :: k in w.ctx ==> k in w'.ctx)
    && (forall k :: k in w.ctx && k != n ==> w'.ctx[k] == w.ctx[k])
    && (forall k :: k in w'.ctx && (k !in w.ctx || w'.ctx[k] != w.ctx[k]) ==> k == n && ServiceEntry(w.defs, k, w'.ctx[k]))
  }

  /** A truthy entry is kept, with its value, by an evolution. */
  lemma EvolvesKeeps(w: World, w': World, k: string)
    requires Evolves(w, w') && Cached(w.ctx, k)
    ensures Cached(w'.ctx, k) && w'.ctx[k] == w.ctx[k]
  {
  }

  lemma EvolvesReflexive(w: World)
    ensures Evolves(w, w)
  {
  }

  lemma EvolvesTransitive(w1: World, w2: World, w3: World)
    requires Evolves(w1, w2) && Evolves(w2, w3)
    ensures Evolves(w1, w3)
  {
    forall k | k in w3.ctx && (k !in w1.ctx || w3.ctx[k] != w1.ctx[k])
      ensures ServiceEntry(w1.defs, k, w3.ctx[k])
    {
      if k in w2.ctx && w3.ctx[k] == w2.ctx[k] {
        assert k !in w1.ctx || w2.ctx[k] != w1.ctx[k];
      }
    }
  }

  /** A strategy call for a name that was not cached when the instantiation
      began keeps the container evolving. */
  lemma EvolvesThenChangesOnly(w1: World, w2: World, w3: World, n: string)
    requires Evolves(w1, w2) && ChangesOnly(w2, w3, n) && !Cached(w1.ctx, n)
    ensures Evolves(w1, w3)
  {
    forall k | Cached(w1.ctx, k)
      ensures k in w3.ctx && w3.ctx[k] == w1.ctx[k]
    {
      assert k != n;
    }
    forall k | k in w3.ctx && (k !in w1.ctx || w3.ctx[k] != w1.ctx[k])
      ensures ServiceEntry(w1.defs, k, w3.ctx[k])
    {
      if k in w2.ctx && w3.ctx[k] == w2.ctx[k] {
        assert k !in w1.ctx || w2.ctx[k] != w1.ctx[k];
      }
    }
  }

  /** A strategy call touches only the entry of its own name: a service
      caches the instance it returns there, a controller leaves the context
      as it was. */
  lemma ProvideChangesOnlyItsName(w: World, d: Definition, deps: seq<JsValue>, args: seq<JsValue>, query: Query)
    requires d.name in w.defs && w.defs[d.name] == d
    ensures ChangesOnly(w, Provide(w, d, deps, args, query).world, d.name)
    ensures d.strategy == DSService ==>
      var st := Provide(w, d, deps, args, query);
      st.result.Ok? && d.name in st.world.ctx && st.world.ctx[d.name] == st.result.value
    ensures d.strategy == DSController ==> Provide(w, d, deps, args, query).world.ctx == w.ctx
  {
  }

  /** Instantiating a registered definition whose name is not cached keeps
      the container evolving as `Evolves` allows. */
  lemma {:induction false} InstantiateEvolves(w: World, d: Definition, args: seq<JsValue>, query: Query, fuel: nat)
    requires KeyedByName(w.defs)
    requires d.name in w.defs && w.defs[d.name] == d && !Cached(w.ctx, d.name)
    decreases fuel, 1, 0
    ensures Evolves(w, Instantiate(w, d, args, query, fuel).world)
  {
    ResolveEvolves(w, d.deps, [], query, fuel);
    var resolved := ResolveDeps(w, d.deps, [], query, fuel);
    if resolved.result.Ok? {
      var st := Provide(resolved.world, d, resolved.result.value, args, query);
      ProvideChangesOnlyItsName(resolved.world, d, resolved.result.value, args, query);
      EvolvesThenChangesOnly(w, resolved.world, st.world, d.name);
    }
  }

  /** Resolving dependencies keeps the container evolving as `Evolves` allows. */
  lemma {:induction false} ResolveEvolves(w: World, names: seq<string>, acc: seq<JsValue>, query: Query, fuel: nat)
    requires KeyedByName(w.defs)
    decreases fuel, 0, |names|
    ensures Evolves(w, ResolveDeps(w, names, acc, query, fuel).world)
  {
    var st := ResolveDeps(w, names, acc, query, fuel);
    if names == [] {
      EvolvesReflexive(w);
    } else {
      var name := names[0];
      if Cached(w.ctx, name) {
        assert st == ResolveDeps(w, names[1..], acc + [w.ctx[name]], query, fuel);
        ResolveEvolves(w, names[1..], acc + [w.ctx[name]], query, fuel);
      } else if name in w.defs && fuel > 0 {
        InstantiateEvolves(w, w.defs[name], [], query, fuel - 1);
        var dep := Instantiate(w, w.defs[name], [], query, fuel - 1);
        if dep.result.Ok? {
          assert st == ResolveDeps(dep.world, names[1..], acc + [dep.result.value], query, fuel);
          ResolveEvolves(dep.world, names[1..], acc + [dep.result.value], query, fuel);
          EvolvesTransitive(w, dep.world, st.world);
        } else {
          assert st.world == dep.world;
        }
      } else {
        assert st.world == w;
        EvolvesReflexive(w);
      }
    }
  }

  /** No rollback: whatever `get` returns, an error included, what it leaves
      behind evolves from what it found, so services cached before a failure
      stay cached. */
  lemma GetEvolves(w: World, name: string, args: seq<JsValue>, query: Query, fuel: nat)
    requires KeyedByName(w.defs)
    ensures Evolves(w, Get(w, name, args, query, fuel).world)
  {
    if !Cached(w.ctx, name) && name in w.defs {
      InstantiateEvolves(w, w.defs[name], args, query, fuel);
    }
  }

  /** Once a name has a truthy entry, `get` of it returns that same value in
      every container that evolves from there. */
  lemma CachedIsFinal(w: World, w': World, name: string, args: seq<JsValue>, query: Query, fuel: nat)
    requires Evolves(w, w') && Cached(w.ctx, name)
    ensures Get(w', name, args, query, fuel) == Step(Ok(w.ctx[name]), w')
  {
    assert w'.ctx[name] == w.ctx[name];
  }

  /** A truthy context entry is returned as it is, ignoring the arguments
      and any definition filed under the same name. */
  lemma GetPrefersContext(w: World, name: string, args: seq<JsValue>, query: Query, fuel: nat, d: Definition)
    requires Cached(w.ctx, name)
    ensures Get(w, name, args, query, fuel) == Step(Ok(w.ctx[name]), w)
    ensures Get(w.(defs := w.defs[name := d]), name, [], query, 0).result == Ok(w.ctx[name])
  {
  }

  /** `get` of a name in neither map fails and changes nothing. */
  lemma GetUndefined(w: World, name: string, args: seq<JsValue>, query: Query, fuel: nat)
    requires !Cached(w.ctx, name) && name !in w.defs
    ensures Get(w, name, args, query, fuel) == Step(Err(NotDefined(name)), w)
  {
  }

  /** Two containers whose registries, identities and logs agree and whose
      contexts agree on every truthy entry. */
  ghost predicate Equivalent(w1: World, w2: World) {
    && w1.defs == w2.defs && w1.next == w2.next && w1.log == w2.log
    && (forall k :: Cached(w1.ctx, k) <==> Cached(w2.ctx, k))
    && (forall k :: Cached(w1.ctx, k) ==> w1.ctx[k] == w2.ctx[k])
  }

  lemma {:induction false} InstantiateReadsTruthy(w1: World, w2: World, d: Definition, args: seq<JsValue>, query: Query, fuel: nat)
    requires Equivalent(w1, w2)
    decreases fuel, 1, 0
    ensures Instantiate(w1, d, args, query, fuel).result == Instantiate(w2, d, args, query, fuel).result
    ensures Equivalent(Instantiate(w1, d, args, query, fuel).world, Instantiate(w2, d, args, query, fuel).world)
  {
    ResolveReadsTruthy(w1, w2, d.deps, [], query, fuel);
    var r1 := ResolveDeps(w1, d.deps, [], query, fuel);
    var r2 := ResolveDeps(w2, d.deps, [], query, fuel);
    if r1.result.Ok? {
      ProvideReadsTruthy(r1.world, r2.world, d, r1.result.value, args, query);
    }
  }

  lemma ProvideReadsTruthy(w1: World, w2: World, d: Definition, deps: seq<JsValue>, args: seq<JsValue>, query: Query)
    requires Equivalent(w1, w2)
    ensures Provide(w1, d, deps, args, query).result == Provide(w2, d, deps, args, query).result
    ensures Equivalent(Provide(w1, d, deps, args, query).world, Provide(w2, d, deps, args, query).world)
  {
    if d.strategy == DSService {
      var service := Inst(w1.next, d.ctor, deps, []);
      var c1 := w1.ctx[d.name := service];
      var c2 := w2.ctx[d.name := service];
      forall k ensures Cached(c1, k) <==> Cached(c2, k) {
        if k != d.name {
          assert Cached(c1, k) == Cached(w1.ctx, k) && Cached(c2, k) == Cached(w2.ctx, k);
        }
      }
    }
  }

  lemma {:induction false} ResolveReadsTruthy(w1: World, w2: World, names: seq<string>, acc: seq<JsValue>, query: Query, fuel: nat)
    requires Equivalent(w1, w2)
    decreases fuel, 0, |names|
    ensures ResolveDeps(w1, names, acc, query, fuel).result == ResolveDeps(w2, names, acc, query, fuel).result
    ensures Equivalent(ResolveDeps(w1, names, acc, query, fuel).world, ResolveDeps(w2, names, acc, query, fuel).world)
  {
    if names != [] {
      var name := names[0];
      if Cached(w1.ctx, name) {
        ResolveReadsTruthy(w1, w2, names[1..], acc + [w1.ctx[name]], query, fuel);
      } else if name in w1.defs && fuel > 0 {
        InstantiateReadsTruthy(w1, w2, w1.defs[name], [], query, fuel - 1);
        var dep1 := Instantiate(w1, w1.defs[name], [], query, fuel - 1);
        var dep2 := Instantiate(w2, w2.defs[name], [], query, fuel - 1);
        if dep1.result.Ok? {
          ResolveReadsTruthy(dep1.world, dep2.world, names[1..], acc + [dep1.result.value], query, fuel);
        }
      }
    }
  }

  /** `get` reads only the truthy part of the context: on equivalent
      containers it gives the same result and leaves equivalent containers. */
  lemma GetReadsTruthy(w1: World, w2: World, name: string, args: seq<JsValue>, query: Query, fuel: nat)
    requires Equivalent(w1, w2)
    ensures Get(w1, name, args, query, fuel).result == Get(w2, name, args, query, fuel).result
    ensures Equivalent(Get(w1, name, args, query, fuel).world, Get(w2, name, args, query, fuel).world)
  {
    if !Cached(w1.ctx, name) && name in w1.defs {
      InstantiateReadsTruthy(w1, w2, w1.defs[name], args, query, fuel);
    }
  }

  /** A falsy value stored with `value` (0, "", false, null, undefined)
      counts as absent: `get` behaves as if the name had no context entry. */
  lemma FalsyValueIsAbsent(w: World, name: string, v: JsValue, args: seq<JsValue>, query: Query, fuel: nat)
    requires !Truthy(v)
    ensures Get(SetValue(w, name, v), name, args, query, fuel).result
         == Get(w.(ctx := w.ctx - {name}), name, args, query, fuel).result
  {
    GetReadsTruthy(SetValue(w, name, v), w.(ctx := w.ctx - {name}), name, args, query, fuel);
  }

  /** A truthy value stored with `value` is what `get` returns. */
  lemma ValueThenGet(w: World, name: string, v: JsValue, args: seq<JsValue>, query: Query, fuel: nat)
    requires Truthy(v)
    ensures Get(SetValue(w, name, v), name, args, query, fuel) == Step(Ok(v), SetValue(w, name, v))
  {
  }

  /** Singleton: a service's first successful `get` caches a new instance
      under its name, and every later `get` returns that same instance. */
  lemma ServiceIsSingleton(w: World, name: string, args1: seq<JsValue>, args2: seq<JsValue>, query: Query, fuel1: nat, fuel2: nat,
                           other: string, argsOther: seq<JsValue>, fuelOther: nat)
    requires KeyedByName(w.defs)
    requires name in w.defs && w.defs[name].strategy == DSService
    requires Get(w, name, args1, query, fuel1).result.Ok?
    ensures var first := Get(w, name, args1, query, fuel1);
      && Cached(first.world.ctx, name)
      && first.world.ctx[name] == first.result.value
      && Get(first.world, name, args2, query, fuel2) == first
    ensures var first := Get(w, name, args1, query, fuel1);
      var between := Get(first.world, other, argsOther, query, fuelOther);
      Get(between.world, name, args2, query, fuel2).result == first.result
    ensures var first := Get(w, name, args1, query, fuel1);
      !Cached(w.ctx, name) ==> first.result.value.Inst? && w.next <= first.result.value.id
  {
    if !Cached(w.ctx, name) {
      var d := w.defs[name];
      var resolved := ResolveDeps(w, d.deps, [], query, fuel1);
      assert Get(w, name, args1, query, fuel1) == ServiceStrategy(resolved.world, d, resolved.result.value);
    }
    var first := Get(w, name, args1, query, fuel1);
    GetEvolves(first.world, other, argsOther, query, fuelOther);
    CachedIsFinal(first.world, Get(first.world, other, argsOther, query, fuelOther).world, name, args2, query, fuel2);
  }

  /** Fresh instances: two `get`s of a controller build two different
      instances, and neither touches the controller's context entry. */
  lemma ControllerIsFresh(w: World, name: string, args1: seq<JsValue>, args2: seq<JsValue>, query: Query, fuel1: nat, fuel2: nat)
    requires KeyedByName(w.defs)
    requires name in w.defs && w.defs[name].strategy == DSController && !Cached(w.ctx, name)
    ensures var first := Get(w, name, args1, query, fuel1);
      && (name in first.world.ctx <==> name in w.ctx)
      && (name in w.ctx ==> first.world.ctx[name] == w.ctx[name])
    ensures var first := Get(w, name, args1, query, fuel1);
      var second := Get(first.world, name, args2, query, fuel2);
      first.result.Ok? && second.result.Ok? ==>
        && first.result.value.Inst? && second.result.value.Inst?
        && w.next <= first.result.value.id < second.result.value.id
  {
    var first := Get(w, name, args1, query, fuel1);
    InstantiateEvolves(w, w.defs[name], args1, query, fuel1);
    assert !ServiceEntry(w.defs, name, Null);
    if name in first.world.ctx {
      assert !ServiceEntry(w.defs, name, first.world.ctx[name]);
    }
  }

  /** The value the dependency named `name` got: the truthy context entry
      found at the start when there is one, and otherwise an instance of the
      service filed under that name. */
  predicate ResolvedFor(w: World, name: string, v: JsValue) {
    if Cached(w.ctx, name) then v == w.ctx[name]
    else ServiceEntry(w.defs, name, v)
  }

  lemma ResolvedForEvolves(w: World, w': World, name: string, v: JsValue)
    requires Evolves(w, w') && ResolvedFor(w', name, v)
    ensures ResolvedFor(w, name, v)
  {
    if !Cached(w.ctx, name) && Cached(w'.ctx, name) {
      assert ServiceEntry(w.defs, name, w'.ctx[name]);
    }
  }

  /** A successful instantiation of a service leaves its instance cached
      under the service's name. */
  lemma InstantiatedServiceIsCached(w: World, d: Definition, args: seq<JsValue>, query: Query, fuel: nat)
    requires d.strategy == DSService && Instantiate(w, d, args, query, fuel).result.Ok?
    ensures var st := Instantiate(w, d, args, query, fuel);
      d.name in st.world.ctx && st.world.ctx[d.name] == st.result.value
  {
  }

  /** The first step of a successful resolution: the first dependency gets
      the value `v` that its truthy entry holds or that its service builds,
      and the rest is resolved from the container `here` it leaves, where
      that value is cached. */
  lemma ResolveFirst(w: World, names: seq<string>, acc: seq<JsValue>, query: Query, fuel: nat) returns (here: World, v: JsValue)
    requires KeyedByName(w.defs)
    requires names != [] && ResolveDeps(w, names, acc, query, fuel).result.Ok?
    ensures ResolveDeps(w, names, acc, query, fuel) == ResolveDeps(here, names[1..], acc + [v], query, fuel)
    ensures Evolves(w, here) && ResolvedFor(w, names[0], v)
    ensures Cached(here.ctx, names[0]) && here.ctx[names[0]] == v
  {
    var name := names[0];
    if Cached(w.ctx, name) {
      here, v := w, w.ctx[name];
      EvolvesReflexive(w);
    } else {
      var dep := Instantiate(w, w.defs[name], [], query, fuel - 1);
      InstantiateEvolves(w, w.defs[name], [], query, fuel - 1);
      InstantiatedServiceIsCached(w, w.defs[name], [], query, fuel - 1);
      here, v := dep.world, dep.result.value;
    }
  }

  /** Positional resolution: argument i is the value for dependency i. */
  lemma {:induction false} ResolvedValues(w: World, names: seq<string>, acc: seq<JsValue>, query: Query, fuel: nat)
    requires KeyedByName(w.defs)
    requires ResolveDeps(w, names, acc, query, fuel).result.Ok?
    decreases |names|
    ensures var vals := ResolveDeps(w, names, acc, query, fuel).result.value;
      forall i :: 0 <= i < |names| ==> ResolvedFor(w, names[i], vals[|acc| + i])
  {
    if names != [] {
      var vals := ResolveDeps(w, names, acc, query, fuel).result.value;
      var here, v := ResolveFirst(w, names, acc, query, fuel);
      ResolvedValues(here, names[1..], acc + [v], query, fuel);
      assert vals[|acc|] == v by {
        assert vals[..|acc| + 1] == acc + [v];
      }
      forall i | 1 <= i < |names|
        ensures ResolvedFor(w, names[i], vals[|acc| + i])
      {
        assert names[1..][i - 1] == names[i];
        ResolvedForEvolves(w, here, names[i], vals[|acc| + 1 + (i - 1)]);
      }
    }
  }

  /** A dependency in neither map, or naming a controller, cannot be resolved
      with no arguments. */
  predicate Unresolvable(w: World, name: string) {
    !Cached(w.ctx, name) && (name !in w.defs || w.defs[name].strategy == DSController)
  }

  /** A controller reached as a dependency gets no arguments, so no element:
      it always fails. */
  lemma {:induction false} NestedControllerFails(w: World, d: Definition, query: Query, fuel: nat)
    requires d.strategy == DSController
    ensures Instantiate(w, d, [], query, fuel).result.Err?
  {
    var resolved := ResolveDeps(w, d.deps, [], query, fuel);
    if resolved.result.Ok? {
      assert FirstElementIndex([]) == None;
    }
  }

  /** A dependency in neither map, or one naming a controller, makes the
      whole resolution fail, wherever it stands in the list. */
  lemma {:induction false} UnresolvableDependencyFails(w: World, names: seq<string>, acc: seq<JsValue>, query: Query, fuel: nat, i: nat)
    requires KeyedByName(w.defs)
    requires i < |names| && Unresolvable(w, names[i])
    decreases i
    ensures ResolveDeps(w, names, acc, query, fuel).result.Err?
  {
    var name := names[0];
    if i == 0 {
      if name in w.defs && fuel > 0 {
        NestedControllerFails(w, w.defs[name], query, fuel - 1);
      }
    } else if Cached(w.ctx, name) {
      UnresolvableDependencyFails(w, names[1..], acc + [w.ctx[name]], query, fuel, i - 1);
    } else if name in w.defs && fuel > 0 {
      var dep := Instantiate(w, w.defs[name], [], query, fuel - 1);
      if dep.result.Ok? {
        InstantiateEvolves(w, w.defs[name], [], query, fuel - 1);
        var missing := names[i];
        assert !ServiceEntry(w.defs, missing, Null);
        if missing in dep.world.ctx {
          assert !ServiceEntry(w.defs, missing, dep.world.ctx[missing]);
        }
        UnresolvableDependencyFails(dep.world, names[1..], acc + [dep.result.value], query, fuel, i - 1);
      }
    }
  }

  /** An "x not defined" error names something that was in neither map. */
  lemma {:induction false} UnresolvedIsMissing(w: World, d: Definition, args: seq<JsValue>, query: Query, fuel: nat, missing: string)
    requires KeyedByName(w.defs)
    requires d.name in w.defs && w.defs[d.name] == d
    requires Instantiate(w, d, args, query, fuel).result == Err(Unresolved(missing))
    decreases fuel, 1, 0
    ensures missing !in w.defs && !Cached(w.ctx, missing)
  {
    ResolveUnresolvedIsMissing(w, d.deps, [], query, fuel, missing);
  }

  lemma {:induction false} ResolveUnresolvedIsMissing(w: World, names: seq<string>, acc: seq<JsValue>, query: Query, fuel: nat, missing: string)
    requires KeyedByName(w.defs)
    requires ResolveDeps(w, names, acc, query, fuel).result == Err(Unresolved(missing))
    decreases fuel, 0, |names|
    ensures missing !in w.defs && !Cached(w.ctx, missing)
  {
    if names != [] {
      var name := names[0];
      if Cached(w.ctx, name) {
        ResolveUnresolvedIsMissing(w, names[1..], acc + [w.ctx[name]], query, fuel, missing);
      } else if name in w.defs && fuel > 0 {
        var dep := Instantiate(w, w.defs[name], [], query, fuel - 1);
        if dep.result.Err? {
          UnresolvedIsMissing(w, w.defs[name], [], query, fuel - 1, missing);
        } else {
          InstantiateEvolves(w, w.defs[name], [], query, fuel - 1);
          ResolveUnresolvedIsMissing(dep.world, names[1..], acc + [dep.result.value], query, fuel, missing);
        }
      }
    }
  }

  /** Resolving a list is resolving a prefix of it and then the rest, from
      the container and the values the prefix left. */
  lemma {:induction false} ResolvePrefix(w: World, names: seq<string>, acc: seq<JsValue>, query: Query, fuel: nat, i: nat)
    requires i <= |names| && ResolveDeps(w, names[..i], acc, query, fuel).result.Ok?
    decreases i
    ensures var prefix := ResolveDeps(w, names[..i], acc, query, fuel);
      ResolveDeps(w, names, acc, query, fuel) == ResolveDeps(prefix.world, names[i..], prefix.result.value, query, fuel)
  {
    if i > 0 {
      var name := names[0];
      assert names[..i][0] == name && names[..i][1..] == names[1..][..i - 1];
      assert names[1..][i - 1..] == names[i..];
      if Cached(w.ctx, name) {
        ResolvePrefix(w, names[1..], acc + [w.ctx[name]], query, fuel, i - 1);
      } else {
        var dep := Instantiate(w, w.defs[name], [], query, fuel - 1);
        ResolvePrefix(dep.world, names[1..], acc + [dep.result.value], query, fuel, i - 1);
      }
    }
  }

  /** After a successful resolution every dependency has a truthy context
      entry holding exactly the value it was resolved to. */
  lemma {:induction false} ResolvedAreCached(w: World, names: seq<string>, acc: seq<JsValue>, query: Query, fuel: nat)
    requires KeyedByName(w.defs)
    requires ResolveDeps(w, names, acc, query, fuel).result.Ok?
    decreases |names|
    ensures var st := ResolveDeps(w, names, acc, query, fuel);
      forall j :: 0 <= j < |names| ==> Cached(st.world.ctx, names[j]) && st.world.ctx[names[j]] == st.result.value[|acc| + j]
  {
    if names != [] {
      var name := names[0];
      var st := ResolveDeps(w, names, acc, query, fuel);
      var here, v := ResolveFirst(w, names, acc, query, fuel);
      assert st == ResolveDeps(here, names[1..], acc + [v], query, fuel);
      ResolvedAreCached(here, names[1..], acc + [v], query, fuel);
      assert Cached(st.world.ctx, name) && st.world.ctx[name] == v by {
        ResolveEvolves(here, names[1..], acc + [v], query, fuel);
        EvolvesKeeps(here, st.world, name);
      }
      assert st.result.value[|acc|] == v by {
        assert st.result.value[..|acc| + 1] == acc + [v];
      }
      forall j | 1 <= j < |names|
        ensures Cached(st.world.ctx, names[j]) && st.world.ctx[names[j]] == st.result.value[|acc| + j]
      {
        assert names[1..][j - 1] == names[j];
      }
    }
  }

  /** No rollback inside a resolution: the dependencies resolved before a
      failure keep their cached values, whatever happens after them. */
  lemma ResolvedPrefixStaysCached(w: World, names: seq<string>, acc: seq<JsValue>, query: Query, fuel: nat, i: nat)
    requires KeyedByName(w.defs)
    requires i <= |names| && ResolveDeps(w, names[..i], acc, query, fuel).result.Ok?
    ensures var prefix := ResolveDeps(w, names[..i], acc, query, fuel);
      var st := ResolveDeps(w, names, acc, query, fuel);
      forall j :: 0 <= j < i ==> Cached(st.world.ctx, names[j]) && st.world.ctx[names[j]] == prefix.result.value[|acc| + j]
  {
    var prefix := ResolveDeps(w, names[..i], acc, query, fuel);
    var st := ResolveDeps(w, names, acc, query, fuel);
    ResolvePrefix(w, names, acc, query, fuel, i);
    ResolvedAreCached(w, names[..i], acc, query, fuel);
    ResolveEvolves(prefix.world, names[i..], prefix.result.value, query, fuel);
    forall j | 0 <= j < i
      ensures Cached(st.world.ctx, names[j]) && st.world.ctx[names[j]] == prefix.result.value[|acc| + j]
    {
      assert names[..i][j] == names[j];
      EvolvesKeeps(prefix.world, st.world, names[j]);
    }
  }

  /** The first dependency found in neither map, once those before it have
      been resolved, fails the resolution with "`<name>` not defined" and
      leaves the container as those before it left it. */
  lemma FirstUndefinedDependency(w: World, names: seq<string>, acc: seq<JsValue>, query: Query, fuel: nat, i: nat)
    requires i < |names| && ResolveDeps(w, names[..i], acc, query, fuel).result.Ok?
    requires var prefix := ResolveDeps(w, names[..i], acc, query, fuel);
      names[i] !in w.defs && !Cached(prefix.world.ctx, names[i])
    ensures ResolveDeps(w, names, acc, query, fuel)
         == Step(Err(Unresolved(names[i])), ResolveDeps(w, names[..i], acc, query, fuel).world)
  {
    ResolvePrefix(w, names, acc, query, fuel, i);
    assert names[i..][0] == names[i];
  }

  /** Dependencies are resolved before the controller looks for its element:
      when they resolve and no argument is an element, `get` fails for want
      of one and leaves every dependency cached with the value it got. */
  lemma ServiceCachedBeforeElementCheck(w: World, c: string, args: seq<JsValue>, query: Query, fuel: nat)
    requires KeyedByName(w.defs)
    requires c in w.defs && w.defs[c].strategy == DSController && !Cached(w.ctx, c)
    requires FirstElementIndex(args).None? && ResolveDeps(w, w.defs[c].deps, [], query, fuel).result.Ok?
    ensures var resolved := ResolveDeps(w, w.defs[c].deps, [], query, fuel);
      Get(w, c, args, query, fuel) == Step(Err(MissingElement), resolved.world)
    ensures var resolved := ResolveDeps(w, w.defs[c].deps, [], query, fuel);
      var deps := w.defs[c].deps;
      forall j :: 0 <= j < |deps| ==> Cached(resolved.world.ctx, deps[j]) && resolved.world.ctx[deps[j]] == resolved.result.value[j]
  {
    ResolvedAreCached(w, w.defs[c].deps, [], query, fuel);
  }

  /** Fuel only cuts the recursion off: any result other than running out of
      fuel stays the same with more fuel. */
  lemma {:induction false} InstantiateMoreFuel(w: World, d: Definition, args: seq<JsValue>, query: Query, fuel: nat)
    requires Instantiate(w, d, args, query, fuel).result != Err(OutOfFuel)
    decreases fuel, 1, 0
    ensures Instantiate(w, d, args, query, fuel + 1) == Instantiate(w, d, args, query, fuel)
  {
    ResolveMoreFuel(w, d.deps, [], query, fuel);
  }

  lemma {:induction false} ResolveMoreFuel(w: World, names: seq<string>, acc: seq<JsValue>, query: Query, fuel: nat)
    requires ResolveDeps(w, names, acc, query, fuel).result != Err(OutOfFuel)
    decreases fuel, 0, |names|
    ensures ResolveDeps(w, names, acc, query, fuel + 1) == ResolveDeps(w, names, acc, query, fuel)
  {
    if names != [] {
      var name := names[0];
      if Cached(w.ctx, name) {
        ResolveMoreFuel(w, names[1..], acc + [w.ctx[name]], query, fuel);
      } else if name in w.defs {
        var dep := Instantiate(w, w.defs[name], [], query, fuel - 1);
        InstantiateMoreFuel(w, w.defs[name], [], query, fuel - 1);
        if dep.result.Ok? {
          ResolveMoreFuel(dep.world, names[1..], acc + [dep.result.value], query, fuel);
        }
      }
    }
  }

  /** The same for `get`. */
  lemma GetMoreFuel(w: World, name: string, args: seq<JsValue>, query: Query, fuel: nat)
    requires Get(w, name, args, query, fuel).result != Err(OutOfFuel)
    ensures Get(w, name, args, query, fuel + 1) == Get(w, name, args, query, fuel)
  {
    if !Cached(w.ctx, name) && name in w.defs {
      InstantiateMoreFuel(w, w.defs[name], args, query, fuel);
    }
  }

  /** Registration files the parsed definition under its name, replacing any
      earlier one, and builds nothing; a rejected registration changes nothing. */
  lemma RegisterOnlyFiles(w: World, strategy: Strategy, name: JsValue, spec: Spec)
    requires KeyedByName(w.defs)
    ensures var w' := Register(w, strategy, name, spec);
      && KeyedByName(w'.defs)
      && w'.ctx == w.ctx && w'.next == w.next && w'.log == w.log
      && (Define(strategy, name, spec).Err? ==> w' == w)
      && (Define(strategy, name, spec).Ok? ==> w'.defs == w.defs[name.s := Define(strategy, name, spec).value])
      && (Define(strategy, name, spec).Ok? ==>
            && name.s in w'.defs && w'.defs[name.s].strategy == strategy
            && (forall k :: k != name.s ==> (k in w'.defs <==> k in w.defs)))
      && (Define(strategy, name, spec).Ok? ==> forall k :: k != name.s && k in w.defs ==> w'.defs[k] == w.defs[k])
  {
  }

  /** Registrations under different names commute: only which definitions
      are filed matters, not the order they were filed in. */
  lemma RegistrationCommutes(w: World, s1: Strategy, n1: JsValue, sp1: Spec, s2: Strategy, n2: JsValue, sp2: Spec)
    requires !(n1.Str? && n2.Str? && n1.s == n2.s)
    ensures Register(Register(w, s1, n1, sp1), s2, n2, sp2) == Register(Register(w, s2, n2, sp2), s1, n1, sp1)
  {
    var r1 := Define(s1, n1, sp1);
    var r2 := Define(s2, n2, sp2);
    if r1.Ok? && r2.Ok? {
      assert w.defs[n1.s := r1.value][n2.s := r2.value] == w.defs[n2.s := r2.value][n1.s := r1.value];
    }
  }

  /** Lazy resolution: a controller may name a service that is registered
      after it; only the registry at the time of `get` counts. */
  lemma LazyServiceResolution(cc: Ctor, sc: Ctor, el: JsValue, query: Query)
    requires IsElement(el) && cc.events.None?
    ensures var w1 := Register(Empty(), DSController, Str("c"), Arr([Str("s"), Func(cc)]));
      Get(w1, "c", [el], query, 1).result == Err(Unresolved("s"))
    ensures var w1 := Register(Empty(), DSController, Str("c"), Arr([Str("s"), Func(cc)]));
      var w2 := Register(w1, DSService, Str("s"), Single(Func(sc)));
      var service := Inst(0, sc, [], []);
      Get(w2, "c", [el], query, 1) == Step(Ok(Inst(1, cc, [service], [el])), w2.(ctx := map["s" := service], next := 1 + 1))
  {
    var c := Definition("c", ["s"], cc, DSController);
    var sv := Definition("s", [], sc, DSService);
    var items := [Str("s"), Func(cc)];
    assert DepKeys(items[..1]) == ["s"];
    assert Define(DSController, Str("c"), Arr(items)) == Ok(c);
    var w1 := Empty().(defs := map["c" := c]);
    var w2 := w1.(defs := w1.defs["s" := sv]);
    assert ResolveDeps(w1, ["s"], [], query, 1) == Step(Err(Unresolved("s")), w1);
    var service := Inst(0, sc, [], []);
    var ws := w2.(ctx := map["s" := service], next := 1);
    assert ResolveDeps(w2, [], [], query, 0) == Step(Ok([]), w2);
    assert Instantiate(w2, sv, [], query, 0) == Step(Ok(service), ws);
    assert ["s"][1..] == [];
    assert ResolveDeps(w2, ["s"], [], query, 1) == Step(Ok([service]), ws);
    assert FirstElementIndex([el]) == Some(0);
  }

  /** What a controller adds to the listener log: nothing without an element
      or without events, otherwise only listeners bound to the new instance
      whose handlers are methods of it; a failure after the element was found
      names a missing handler. */
  lemma ControllerListeners(w: World, d: Definition, deps: seq<JsValue>, args: seq<JsValue>, query: Query)
    ensures var st := ControllerStrategy(w, d, deps, args, query);
      && w.log <= st.world.log
      && (d.ctor.events.None? || FirstElementIndex(args).None? ==> st.world.log == w.log)
      && (forall l :: l in st.world.log[|w.log|..] ==> l.instance == Inst(w.next, d.ctor, deps, args) && l.handler in d.ctor.methods)
      && (st.result.Err? && FirstElementIndex(args).Some? ==> st.result.error.MissingHandler? && st.result.error.handler !in d.ctor.methods)
  {
    var st := ControllerStrategy(w, d, deps, args, query);
    if FirstElementIndex(args).Some? && d.ctor.events.Some? {
      var i := FirstElementIndex(args).value;
      var controller := Inst(w.next, d.ctor, deps, args);
      BindAllHandlers(d.ctor.events.value, args[i], controller, d.ctor.methods, query);
      var b := BindAll(d.ctor.events.value, args[i], controller, d.ctor.methods, query);
      assert st.world.log[|w.log|..] == b.added;
    } else {
      assert st.world.log[|w.log|..] == [];
    }
  }

  /** Events whose keys have no space are all bound on the root element. */
  lemma {:induction false} RootKeysBindOnRoot(events: seq<(string, string)>, el: JsValue, instance: JsValue, methods: set<string>, query: Query)
    requires forall e :: e in events ==> ' ' !in e.0
    ensures forall l :: l in BindAll(events, el, instance, methods, query).added ==> l.target == el
  {
    if events != [] {
      RootKeyBinding(events[0].0, events[0].1, el, instance, methods, query);
      assert events[0] in events;
      if BindKey(events[0].0, events[0].1, el, instance, methods, query).failure.None? {
        assert forall e :: e in events[1..] ==> e in events;
        RootKeysBindOnRoot(events[1..], el, instance, methods, query);
      }
    }
  }

  /** A controller binds the events of keys without a space on the first
      element among its arguments: the one at the smallest index, whatever
      precedes it and whatever elements follow it. */
  lemma BindsOnFirstElementOnly(w: World, d: Definition, deps: seq<JsValue>, args: seq<JsValue>, query: Query)
    requires FirstElementIndex(args).Some? && d.ctor.events.Some?
    requires forall e :: e in d.ctor.events.value ==> ' ' !in e.0
    ensures var st := ControllerStrategy(w, d, deps, args, query);
      forall l :: l in st.world.log[|w.log|..] ==> l.target == args[FirstElementIndex(args).value]
  {
    var i := FirstElementIndex(args).value;
    var controller := Inst(w.next, d.ctor, deps, args);
    RootKeysBindOnRoot(d.ctor.events.value, args[i], controller, d.ctor.methods, query);
    var st := ControllerStrategy(w, d, deps, args, query);
    assert st.world.log[|w.log|..] == BindAll(d.ctor.events.value, args[i], controller, d.ctor.methods, query).added;
  }

  /** A registry without dependency cycles: each definition has a rank, and
      every registered dependency of it ranks lower. */
  ghost predicate Ranked(defs: map<string, Definition>, rank: map<string, nat>) {
    forall k :: k in defs ==> k in rank && forall n :: n in defs[k].deps && n in defs ==> n in rank && rank[n] < rank[k]
  }

  /** Fuel is adequate: on a registry without cycles, instantiation with fuel
      above the rank of every registered dependency never runs out of it. */
  lemma {:induction false} InstantiateHasFuel(w: World, d: Definition, args: seq<JsValue>, query: Query, rank: map<string, nat>, fuel: nat)
    requires Ranked(w.defs, rank)
    requires forall n :: n in d.deps && n in w.defs ==> n in rank && rank[n] < fuel
    decreases fuel, 1, 0
    ensures Instantiate(w, d, args, query, fuel).result != Err(OutOfFuel)
  {
    ResolveHasFuel(w, d.deps, [], query, rank, fuel);
  }

  lemma {:induction false} ResolveHasFuel(w: World, names: seq<string>, acc: seq<JsValue>, query: Query, rank: map<string, nat>, fuel: nat)
    requires Ranked(w.defs, rank)
    requires forall n :: n in names && n in w.defs ==> n in rank && rank[n] < fuel
    decreases fuel, 0, |names|
    ensures ResolveDeps(w, names, acc, query, fuel).result != Err(OutOfFuel)
  {
    if names != [] {
      var name := names[0];
      assert name in names;
      assert forall n :: n in names[1..] ==> n in names;
      if Cached(w.ctx, name) {
        ResolveHasFuel(w, names[1..], acc + [w.ctx[name]], query, rank, fuel);
      } else if name in w.defs {
        var dep := Instantiate(w, w.defs[name], [], query, fuel - 1);
        InstantiateHasFuel(w, w.defs[name], [], query, rank, fuel - 1);
        if dep.result.Ok? {
          ResolveHasFuel(dep.world, names[1..], acc + [dep.result.value], query, rank, fuel);
        }
      }
    }
  }

  /** The same for `get`: fuel at least the rank of the name suffices. */
  lemma GetHasFuel(w: World, name: string, args: seq<JsValue>, query: Query, rank: map<string, nat>, fuel: nat)
    requires Ranked(w.defs, rank)
    requires name in w.defs ==> name in rank && rank[name] <= fuel
    ensures Get(w, name, args, query, fuel).result != Err(OutOfFuel)
  {
    if !Cached(w.ctx, name) && name in w.defs {
      InstantiateHasFuel(w, w.defs[name], args, query, rank, fuel);
    }
  }
}

# dollar-slice container, modelled in Dafny

`index.js` of dollar-slice defines `Module`, a small dependency-injection
container for browser code. A container keeps two maps, and both change in place:

- a registry `definitions`, which `service` and `controller` fill;
- a context `context`, which `value` fills and which services cache themselves into.

`get(name, ...args)` works in this order:

1. It returns a truthy context entry when there is one.
2. Otherwise it instantiates the registered definition. First it resolves the
   dependencies left to right: from the context, by a nested instantiation
   without arguments, or by failing with "`<dep>` not defined". Then it hands
   them to the definition's provider strategy:
   - `DSService` builds one instance and caches it under the name;
   - `DSController` finds the first DOM element among the arguments, builds a
     fresh instance every time, and binds the instance's declarative `events`
     map on that element and on the elements its selectors match.

The project has these parts:

- `values.dfy` (module `Values`): JavaScript values, truthiness, `isElement`,
  property keys and the container's errors. Constructors are opaque, and
  each container numbers the instances it builds with its own counter. Within
  one container, "the same instance" is equality of those numbers.
- `elements.dfy` (`Elements`): `getFirstElementArgument`, as a loop proved
  against the function `FirstElementIndex`.
- `events.dfy` (`Events`): parsing of event keys on their last space, and
  `addEvents`. The latter is a method over a `Dom` object whose listener log
  grows as listeners are added. It is proved against the function `BindAll`.
  `querySelectorAll` is an abstract function from a root element and a
  selector to the matched elements.
- `definitions.dfy` (`Definitions`): `define`, which turns a name and a
  registration spec into an immutable definition record.
- `resolution.dfy` (`Resolution`): the container as a value (`World`), with
  `get`, `instantiate`, the dependency loop and both strategies as functions.
  A `fuel` argument bounds the nesting of instantiations.
- `ds.dfy` (`DS`): the container class `Module`, with its two maps and its
  instance counter. Its methods mutate the maps and the listener log, and
  each is proved to take the state exactly where the matching function of
  `Resolution` takes it.
- `facts.dfy` (`Facts`): what the container promises, proved about those
  functions. This covers lookup order, the singleton and fresh-instance
  contracts, positional and lazy dependency resolution, failure cases,
  no rollback after a failure, and the fact that fuel only cuts the recursion off.

## Model

| member | source | states |
|---|---|---|
| Elements.FirstElementIndex | index.js:10-19 | the index found holds an element and no earlier argument is one; none is found only when no argument is an element |
| Elements.GetFirstElementArgument | index.js:10-19 | returns the first element argument, and fails with the missing-element error when there is none |
| Events.LastSpace | index.js:33 | the index found holds a space and no later character is one; none is found only when the key has no space |
| Events.ParseKey | index.js:33-41 | a key is a root event exactly when it has no space, and then the event is the whole key; otherwise selector, space and event name rebuild the key, and the event name has no space |
| Events.ParseKeyOfFormat | index.js:33-41 | parsing `selector + " " + event` gives back that selector and event whenever the event has no space |
| Events.RootKeyBinding | index.js:35-37 | a key without a space adds exactly one listener, on the root element, for the key itself; a missing handler makes it fail |
| Events.SelectorKeyBinding | index.js:38-46 | a selector key adds one listener per element the selector matches, in order, for the event after the last space; it fails exactly when something matched and the handler is missing |
| Events.BindAllHandlers | index.js:27-50 | every listener added is bound to the instance and calls one of its methods; a failure names a handler of the map that the instance lacks |
| Events.AddKey | index.js:33-47 | appends to the listener log exactly the listeners of one entry, and reports its failure |
| Events.AddEvents | index.js:27-50 | appends exactly `BindAll`'s listeners in order, stops at the first failing entry, and keeps what earlier entries added |
| Definitions.Define | index.js:116-139 | a non-string name is rejected; a bare function has no dependencies; an array must end with a function, and its other items, in order, are the dependencies; every other spec is rejected, and with a string name the only error is the invalid-definition one |
| Resolution.Instantiate | index.js:148-166 | never changes the registry or lowers the identity counter, only appends to the log, and on success yields a fresh instance of the definition's constructor |
| Resolution.ResolveDeps | index.js:155-163 | the same frame; on success it yields one value per dependency, after those already resolved |
| DS.Module.constructor | index.js:168-171 | a new container has an empty registry and an empty context |
| DS.Module.Value | index.js:228-231 | stores the value under the name, whatever it is, and changes nothing else |
| DS.Module.Service | index.js:217-221 | files the parsed service definition under its name, replacing any earlier one; a rejected spec changes nothing; the context is untouched |
| DS.Module.Controller | index.js:207-210 | the same, for a controller definition |
| DS.Module.ProvideService | index.js:71-77 | builds the instance and caches it under the definition's name, exactly as `ServiceStrategy` |
| DS.Module.ProvideController | index.js:89-102 | finds the element, builds the controller and binds its events, exactly as `ControllerStrategy` |
| DS.Module.Instantiate | index.js:148-166 | the loop over dependencies and the strategy call take the container and the log exactly where `Resolution.Instantiate` does |
| DS.Module.Get | index.js:188-198 | takes the container and the log exactly where `Resolution.Get` does |
| Facts.InstantiateEvolves | index.js:148-166 | instantiating a name that is not cached keeps the registry and only adds context entries and listeners. Every truthy entry keeps its exact value, and every changed entry holds an instance of the service filed under that name |
| Facts.ResolveEvolves | index.js:155-163 | the same for the dependency loop |
| Facts.ProvideChangesOnlyItsName | index.js:71-102 | a strategy call changes only the context entry of its own name: a service caches there the instance it returns, and a controller leaves the context as it was |
| Facts.GetEvolves | index.js:188-198 | no rollback: whatever `get` returns, an error included, every truthy entry keeps its value, and every changed entry holds an instance of that name's service |
| Facts.CachedIsFinal | index.js:188-191 | once a name has a truthy entry, `get` of it returns that same value in every container that evolves from there |
| Facts.GetPrefersContext | index.js:188-191 | a truthy context entry is returned unchanged, whatever the arguments and any same-named definition |
| Facts.GetUndefined | index.js:193-197 | a name in neither map fails with "is not defined" and changes nothing |
| Facts.InstantiateReadsTruthy | index.js:148-166 | instantiation reads only the truthy context entries |
| Facts.ResolveReadsTruthy | index.js:155-163 | the dependency loop reads only the truthy context entries |
| Facts.ProvideReadsTruthy | index.js:71-102 | the strategies read only the truthy context entries |
| Facts.GetReadsTruthy | index.js:188-198 | `get` gives the same result on containers that agree on their truthy entries |
| Facts.FalsyValueIsAbsent | index.js:188-191 | a falsy value stored with `value` behaves as if the name had no context entry |
| Facts.ValueThenGet | index.js:228-231 | a truthy value stored with `value` is what `get` returns |
| Facts.ServiceIsSingleton | index.js:71-77 | a service's first successful `get` caches a new instance under its name, and a later `get` returns that identical instance, straight after or after a `get` of any other name |
| Facts.ControllerIsFresh | index.js:89-102 | each `get` of a controller builds a new instance whose identity is at least the container's counter, a second `get` builds one with a larger identity, and neither touches the controller's context entry |
| Facts.ResolvedValues | index.js:155-163 | argument i is the value for dependency i: its truthy context entry at the start if it had one, and otherwise an instance of the service filed under that name |
| Facts.InstantiatedServiceIsCached | index.js:71-77 | a successful instantiation of a service leaves its instance cached under its name |
| Facts.ResolvePrefix | index.js:155-163 | resolving a list is resolving a prefix of it, then the rest from where the prefix left the container |
| Facts.ResolvedAreCached | index.js:155-163 | after a successful resolution every dependency has a truthy context entry holding exactly the value it was resolved to |
| Facts.ResolvedPrefixStaysCached | index.js:155-163 | no rollback: the dependencies resolved before a failure keep their cached values, whatever comes after them |
| Facts.FirstUndefinedDependency | index.js:155-162 | the first dependency found in neither map, once those before it are resolved, fails the resolution with "`<name>` not defined" for that name, leaving the container as those before it left it |
| Facts.NestedControllerFails | index.js:159 | a controller reached as a dependency gets no arguments, so it always fails |
| Facts.UnresolvableDependencyFails | index.js:155-163 | a dependency in neither map, or naming a controller, makes resolution fail, with some error, wherever it stands |
| Facts.UnresolvedIsMissing | index.js:148-166 | a "not defined" error from instantiation names something in neither map |
| Facts.ResolveUnresolvedIsMissing | index.js:155-163 | the same for the dependency loop |
| Facts.ServiceCachedBeforeElementCheck | index.js:155-165 | for any controller whose dependencies resolve and whose arguments hold no element, `get` fails for want of an element, and leaves the container where resolution left it, with every dependency cached at the value it got |
| Facts.InstantiateMoreFuel | index.js:148-166 | more fuel changes no result other than running out of fuel |
| Facts.ResolveMoreFuel | index.js:155-163 | the same for the dependency loop |
| Facts.GetMoreFuel | index.js:188-198 | the same for `get` |
| Facts.InstantiateHasFuel | index.js:148-166 | on a registry without cycles, where each definition outranks its registered dependencies, fuel above the rank of every dependency never runs out |
| Facts.ResolveHasFuel | index.js:155-163 | the same for the dependency loop |
| Facts.GetHasFuel | index.js:188-198 | the same for `get`, with fuel at least the rank of the name |
| Facts.RegisterOnlyFiles | index.js:207-221 | registration files exactly the definition `define` parsed under its name, overwriting, and leaves every other definition, the context, the counter and the log alone; a rejected registration changes nothing |
| Facts.RegistrationCommutes | index.js:207-221 | registrations under different names commute |
| Facts.LazyServiceResolution | index.js:155-163 | a controller may depend on a service registered after it; `get` fails before that registration and succeeds after it |
| Facts.ControllerListeners | index.js:89-102 | a controller adds listeners only when it has an element and events, and they are bound to the new instance and call its methods; any later failure names a missing handler |
| Facts.RootKeysBindOnRoot | index.js:31-37 | events whose keys have no space are all bound on the root element |
| Facts.BindsOnFirstElementOnly | index.js:89-99 | for any arguments and any events map without selectors, a controller binds every listener on the first element argument, at the smallest index, and on no other |

## Left out

- Stack overflow on cyclic dependencies: the source has no cycle detection. The model bounds nesting with `fuel` and fails with `OutOfFuel` instead. `InstantiateMoreFuel` shows that fuel changes nothing else.
- Fuel adequacy is stated for a registry given a rank. The model does not prove that every registry without cycles has one.
- Facts.InstantiateEvolves: is stated for a name that is not cached, which is how `get` and the dependency loop reach it. Called directly on a cached service, `instantiate` builds a new instance and replaces the cached one.
- Instance identities are per container: two containers number their instances from the same start. So an instance of one container stored with `value` in another may share a number with a different object there. Equality of identities means the same object only within one container.
- Dependency keys are computed when a definition is registered. In the source they are computed at each lookup, which gives the same keys.
- Global and default module setup (index.js:236-252): the default container, the `$window`/`$document`/`$module` values and module export are host wiring.
- DOM behaviour: which elements a selector matches, event dispatch and `bind(controller)` semantics are not modelled. `querySelectorAll` is an abstract function, and each `addEventListener` is one entry of the listener log.
- Constructor mechanics: the bodies of user constructors and the `new`/`apply` calls are not modelled. A constructor is described by its source text, its method names and its optional events list. For a controller, the method names and events depend only on the constructor, not on the dependency values.
- A controller's events map is a sequence of key/handler pairs in iteration order. A falsy `events` member is `None`.
- Property tagging by `define` (index.js:134-137) is not modelled. In the source, it makes one function registered twice share a single definition record. The model keeps immutable records instead.
- Errors thrown as `TypeError` are not kept apart: a non-function spec is folded into `InvalidDefinition`, and calling a missing handler is `MissingHandler`.
- Lookups of names inherited from `Object.prototype` (such as "constructor") are not modelled: the maps hold only own entries.
- Names passed to `get` and `value` are strings. Other JavaScript values used as keys are modelled only for dependency items, through their property key.
- JavaScript numbers are integers here: fractions and NaN are not modelled, although they only matter for truthiness and property keys.
- The public `instantiate` method is modelled only as it is reached through `get`, resolving against the receiving container's own maps.
- The test mock marks elements with `nodeName`, but index.js:58 tests `nodeType === 1`. The model follows `nodeType`.

/** Registration: `define` turns a name and a definition spec into the
    record the container keeps for that name. */
module Definitions {
  import opened Values

  /** The provider strategy a definition is built with. */
  datatype Strategy = DSService | DSController

  /** A registered definition: the constructor, the names of its
      dependencies in positional order, and its provider strategy. */
  datatype Definition = Definition(name: string, deps: seq<string>, ctor: Ctor, strategy: Strategy)

  /** The second argument of `service`/`controller`: a bare value (normally a
      constructor) or an array of dependency names ending with a constructor. */
  datatype Spec = Single(v: JsValue) | Arr(items: seq<JsValue>)

  /** The keys JavaScript uses for the dependency items. */
  function DepKeys(items: seq<JsValue>): (keys: seq<string>)
    ensures |keys| == |items|
    ensures forall i :: 0 <= i < |items| ==> keys[i] == ToKey(items[i])
  {
    seq(|items|, i requires 0 <= i < |items| => ToKey(items[i]))
  }

  /** `define`: a non-string name is rejected; a bare constructor has no
      dependencies; an array's last element must be a constructor and the
      elements before it are the dependencies. Anything else is rejected. */
  function Define(strategy: Strategy, name: JsValue, spec: Spec): (r: Result<Definition>)
    ensures !name.Str? ==> r == Err(InvalidName)
    ensures name.Str? ==> (r.Ok? <==> match spec
                                      case Single(v) => v.Func?
                                      case Arr(items) => |items| > 0 && items[|items| - 1].Func?)
    ensures r.Err? ==> r.error == InvalidName || r.error == InvalidDefinition
    ensures name.Str? && r.Err? ==> r.error == InvalidDefinition
    ensures r.Ok? ==> r.value.name == name.s && r.value.strategy == strategy
    ensures r.Ok? && spec.Single? ==> r.value.deps == [] && spec.v == Func(r.value.ctor)
    ensures r.Ok? && spec.Arr? ==> |r.value.deps| == |spec.items| - 1 && spec.items[|spec.items| - 1] == Func(r.value.ctor)
    ensures r.Ok? && spec.Arr? ==> forall i :: 0 <= i < |r.value.deps| ==> r.value.deps[i] == ToKey(spec.items[i])
  {
    if !name.Str? then Err(InvalidName)
    else
      match spec
      case Single(v) =>
        if v.Func? then Ok(Definition(name.s, [], v.ctor, strategy)) else Err(InvalidDefinition)
      case Arr(items) =>
        if |items| > 0 && items[|items| - 1].Func? then
          Ok(Definition(name.s, DepKeys(items[..|items| - 1]), items[|items| - 1].ctor, strategy))
        else Err(InvalidDefinition)
  }
}

/**
 * The JavaScript values the container handles: names, constructors, DOM
 * elements, the instances it builds, and the errors it throws.
 */
module Values {

  datatype Option<+T> = None | Some(value: T)

  /** A user constructor function, described by what it yields.
      `source` is the function's text (what JavaScript's String(fn) gives),
      `methods` the names of the function-valued members of the instances it
      builds, and `events` their `events` map (None when that member is falsy). */
  datatype Ctor = Ctor(source: string, methods: set<string>, events: Option<seq<(string, string)>>)

  /** A JavaScript value. `Obj` is any plain host object, with its `nodeType`
      member when it has one; `Inst` is an object built by a container: `id` is
      its identity, `deps` and `args` the arguments its constructors received. */
  datatype JsValue =
    | Undefined
    | Null
    | Bool(b: bool)
    | Num(n: int)
    | Str(s: string)
    | Obj(ref: nat, nodeType: Option<int>)
    | Func(ctor: Ctor)
    | Inst(id: nat, ctor: Ctor, deps: seq<JsValue>, args: seq<JsValue>)

  /** The errors the container throws. */
  datatype Error =
    | InvalidName                     // 'Name must be a string'
    | InvalidDefinition               // the definition is not a function or does not end with one
    | MissingElement                  // 'Must have element to bind controller'
    | Unresolved(name: string)        // '<dependency> not defined'
    | NotDefined(name: string)        // '<name> is not defined'
    | MissingHandler(handler: string) // TypeError: the event handler is not a method of the instance
    | OutOfFuel                       // the recursion bound of this model was reached

  datatype Result<+T> = Ok(value: T) | Err(error: Error)

  /** Success or failure of an operation that returns the container itself. */
  datatype Outcome = Pass | Fail(error: Error)

  /** JavaScript truthiness: objects and functions are truthy, and so is every
      primitive except undefined, null, false, 0 and "". */
  predicate Truthy(v: JsValue) {
    match v
    case Undefined => false
    case Null => false
    case Bool(b) => b
    case Num(n) => n != 0
    case Str(s) => s != ""
    case _ => true
  }

  /** `isElement`: a truthy value whose `nodeType` is exactly 1. */
  predicate IsElement(v: JsValue) {
    v.Obj? && v.nodeType == Some(1)
  }

  function DigitChar(d: nat): char
    requires d < 10
  {
    "0123456789"[d]
  }

  function NatToString(n: nat): (s: string)
    ensures |s| > 0
  {
    if n < 10 then [DigitChar(n)] else NatToString(n / 10) + [DigitChar(n % 10)]
  }

  /** The property key JavaScript uses when `v` indexes an object. */
  function ToKey(v: JsValue): string {
    match v
    case Undefined => "undefined"
    case Null => "null"
    case Bool(b) => if b then "true" else "false"
    case Num(n) => if n < 0 then "-" + NatToString(-n) else NatToString(n)
    case Str(s) => s
    case Obj(_, _) => "[object Object]"
    case Func(c) => c.source
    case Inst(_, _, _, _) => "[object Object]"
  }
}

/** Element detection: which argument of a controller call is its root element. */
module Elements {
  import opened Values

  /** The smallest index of an element among `args`, if there is one. */
  function FirstElementIndex(args: seq<JsValue>): (r: Option<nat>)
    ensures r.Some? ==> r.value < |args| && IsElement(args[r.value])
    ensures r.Some? ==> forall j :: 0 <= j < r.value ==> !IsElement(args[j])
    ensures r.None? ==> forall j :: 0 <= j < |args| ==> !IsElement(args[j])
  {
    if args == [] then None
    else if IsElement(args[0]) then Some(0)
    else
      match FirstElementIndex(args[1..])
      case None => None
      case Some(i) => Some(i + 1)
  }

  /** `getFirstElementArgument`: scans the arguments in order and returns the
      first element, or fails when there is none. */
  method GetFirstElementArgument(args: seq<JsValue>) returns (r: Result<JsValue>)
    ensures FirstElementIndex(args).None? ==> r == Err(MissingElement)
    ensures FirstElementIndex(args).Some? ==> r == Ok(args[FirstElementIndex(args).value])
  {
    var i := 0;
    while i < |args|
      invariant 0 <= i <= |args|
      invariant forall j :: 0 <= j < i ==> !IsElement(args[j])
    {
      if IsElement(args[i]) {
        return Ok(args[i]);
      }
      i := i + 1;
    }
    return Err(MissingElement);
  }
}

/**
 * Declarative event binding: each key of a controller's `events` map names
 * an event, optionally after a selector, and each value names the method of
 * the controller that handles it.
 */
module Events {
  import opened Values

  /** `querySelectorAll` of the host DOM, as a function of the root element
      and the selector; which elements a selector matches is not modelled. */
  type Query = (JsValue, string) -> seq<JsValue>

  /** One `addEventListener` call: the element it was made on, the event
      name, and the method of `instance` bound as the listener. */
  datatype Listener = Listener(target: JsValue, eventName: string, handler: string, instance: JsValue)

  /** The listeners a binding added, and the handler whose absence stopped it. */
  datatype Binding = Binding(added: seq<Listener>, failure: Option<string>)

  /** An event key, split on its last space. */
  datatype EventKey = OnRoot(eventName: string) | OnSelector(selector: string, eventName: string)

  /** `lastIndexOf(' ')`: the index of the last space in `s`. */
  function LastSpace(s: string): (r: Option<nat>)
    ensures r.Some? ==> r.value < |s| && s[r.value] == ' '
    ensures r.Some? ==> forall j :: r.value < j < |s| ==> s[j] != ' '
    ensures r.None? ==> forall j :: 0 <= j < |s| ==> s[j] != ' '
  {
    if s == [] then None
    else if s[|s| - 1] == ' ' then Some(|s| - 1)
    else LastSpace(s[..|s| - 1])
  }

  /** A key without a space is an event on the root element; otherwise the
      text after the last space is the event and the text before it the selector. */
  function ParseKey(key: string): (k: EventKey)
    ensures k.OnRoot? <==> ' ' !in key
    ensures k.OnRoot? ==> k.eventName == key
    ensures k.OnSelector? ==> k.selector + " " + k.eventName == key && ' ' !in k.eventName
  {
    match LastSpace(key)
    case None => OnRoot(key)
    case Some(i) =>
      assert key[..i] + " " + key[i + 1..] == key by {
        assert key == key[..i] + [key[i]] + key[i + 1..];
      }
      OnSelector(key[..i], key[i + 1..])
  }

  /** `ParseKey` inverts the way a selector key is written: a selector, a
      space, and an event name without spaces. */
  lemma ParseKeyOfFormat(selector: string, eventName: string)
    requires ' ' !in eventName
    ensures ParseKey(selector + " " + eventName) == OnSelector(selector, eventName)
  {
    var key := selector + " " + eventName;
    var n := |selector|;
    assert key[n] == ' ';
    var i := LastSpace(key).value;
    assert i == n;
    assert key[..n] == selector;
    assert key[n + 1..] == eventName;
  }

  /** The elements a parsed key binds on. */
  function Targets(k: EventKey, el: JsValue, query: Query): seq<JsValue> {
    match k
    case OnRoot(_) => [el]
    case OnSelector(selector, _) => query(el, selector)
  }

  /** One listener per target, in the targets' order. */
  function ListenersFor(targets: seq<JsValue>, eventName: string, handler: string, instance: JsValue): seq<Listener> {
    seq(|targets|, i requires 0 <= i < |targets| => Listener(targets[i], eventName, handler, instance))
  }

  /** Binding of one `key: handler` entry. Looking the handler up on the
      instance fails only when there is a target to bind it on. */
  function BindKey(key: string, handler: string, el: JsValue, instance: JsValue, methods: set<string>, query: Query): Binding {
    var k := ParseKey(key);
    var targets := Targets(k, el, query);
    if |targets| > 0 && handler !in methods then Binding([], Some(handler))
    else Binding(ListenersFor(targets, k.eventName, handler, instance), None)
  }

  /** `addEvents`: the entries in order; the first failing entry stops the
      binding, and what earlier entries added stays. */
  function BindAll(events: seq<(string, string)>, el: JsValue, instance: JsValue, methods: set<string>, query: Query): Binding {
    if events == [] then Binding([], None)
    else
      var first := BindKey(events[0].0, events[0].1, el, instance, methods, query);
      if first.failure.Some? then first
      else
        var rest := BindAll(events[1..], el, instance, methods, query);
        Binding(first.added + rest.added, rest.failure)
  }

  /** Every listener `addEvents` registers calls a method the instance has,
      bound to that instance; a failure names a handler of the map that the
      instance lacks. */
  lemma {:induction false} BindAllHandlers(events: seq<(string, string)>, el: JsValue, instance: JsValue, methods: set<string>, query: Query)
    ensures var b := BindAll(events, el, instance, methods, query);
      && (forall l :: l in b.added ==> l.instance == instance && l.handler in methods)
      && (b.failure.Some? ==> b.failure.value !in methods && exists e :: e in events && e.1 == b.failure.value)
  {
    if events != [] {
      var first := BindKey(events[0].0, events[0].1, el, instance, methods, query);
      if first.failure.None? {
        BindAllHandlers(events[1..], el, instance, methods, query);
        assert forall e :: e in events[1..] ==> e in events;
      } else {
        assert events[0] in events;
      }
    }
  }

  /** What `addEvents` has bound after entry `i`, given what it had bound before it. */
  lemma BindAllStep(events: seq<(string, string)>, i: nat, done: seq<Listener>, el: JsValue, instance: JsValue, methods: set<string>, query: Query)
    requires i < |events|
    requires var rest := BindAll(events[i..], el, instance, methods, query);
      BindAll(events, el, instance, methods, query) == Binding(done + rest.added, rest.failure)
    ensures var b := BindKey(events[i].0, events[i].1, el, instance, methods, query);
      var rest := BindAll(events[i + 1..], el, instance, methods, query);
      BindAll(events, el, instance, methods, query)
        == if b.failure.Some? then Binding(done, b.failure) else Binding(done + b.added + rest.added, rest.failure)
  {
    assert events[i..][1..] == events[i + 1..];
    var b := BindKey(events[i].0, events[i].1, el, instance, methods, query);
    var rest := BindAll(events[i + 1..], el, instance, methods, query);
    if b.failure.None? {
      assert done + (b.added + rest.added) == done + b.added + rest.added;
    }
  }

  /** A key without a space adds exactly one listener, on the root element,
      for the event the key names; it fails when the handler is missing. */
  lemma RootKeyBinding(key: string, handler: string, el: JsValue, instance: JsValue, methods: set<string>, query: Query)
    requires ' ' !in key
    ensures BindKey(key, handler, el, instance, methods, query)
         == if handler in methods then Binding([Listener(el, key, handler, instance)], None)
            else Binding([], Some(handler))
  {
    assert ListenersFor([el], key, handler, instance) == [Listener(el, key, handler, instance)];
  }

  /** A key `selector eventName` adds one listener per element the selector
      matches, in their order, for the event after the last space; the handler
      is looked up, and can fail, only when the selector matches something. */
  lemma SelectorKeyBinding(selector: string, eventName: string, handler: string, el: JsValue, instance: JsValue,
                           methods: set<string>, query: Query)
    requires ' ' !in eventName
    ensures var b := BindKey(selector + " " + eventName, handler, el, instance, methods, query);
      var targets := query(el, selector);
      && (b.failure.Some? <==> |targets| > 0 && handler !in methods)
      && (b.failure.Some? ==> b.failure.value == handler && b.added == [])
      && (b.failure.None? ==> |b.added| == |targets|)
      && (b.failure.None? ==> forall i :: 0 <= i < |targets| ==> b.added[i] == Listener(targets[i], eventName, handler, instance))
  {
    ParseKeyOfFormat(selector, eventName);
  }

  lemma ListenersForSnoc(targets: seq<JsValue>, j: nat, eventName: string, handler: string, instance: JsValue)
    requires j < |targets|
    ensures ListenersFor(targets[..j + 1], eventName, handler, instance)
         == ListenersFor(targets[..j], eventName, handler, instance) + [Listener(targets[j], eventName, handler, instance)]
  {
  }

  /** The host document: the log of every listener registered on its elements. */
  class Dom {
    var listeners: seq<Listener>
    const query: Query

    constructor (query: Query)
      ensures listeners == [] && this.query == query
    {
      listeners := [];
      this.query := query;
    }
  }

  /** The body of `addEvents` for one entry: one listener on `el` for a key
      without a space, otherwise one on each element the selector matches. */
  method AddKey(key: string, handler: string, el: JsValue, instance: JsValue, methods: set<string>, dom: Dom)
    returns (failure: Option<string>)
    modifies dom
    ensures dom.listeners == old(dom.listeners) + BindKey(key, handler, el, instance, methods, dom.query).added
    ensures failure == BindKey(key, handler, el, instance, methods, dom.query).failure
  {
    var k := ParseKey(key);
    if k.OnRoot? {
      if handler !in methods {
        return Some(handler);
      }
      dom.listeners := dom.listeners + [Listener(el, k.eventName, handler, instance)];
      assert ListenersFor([el], k.eventName, handler, instance) == [Listener(el, k.eventName, handler, instance)];
    } else {
      var targets := dom.query(el, k.selector);
      var j := 0;
      while j < |targets|
        invariant 0 <= j <= |targets|
        invariant j > 0 ==> handler in methods
        invariant dom.listeners == old(dom.listeners) + ListenersFor(targets[..j], k.eventName, handler, instance)
      {
        if handler !in methods {
          return Some(handler);
        }
        ListenersForSnoc(targets, j, k.eventName, handler, instance);
        dom.listeners := dom.listeners + [Listener(targets[j], k.eventName, handler, instance)];
        j := j + 1;
      }
      assert targets[..j] == targets;
    }
    return None;
  }

  /** One iteration of the loop of `addEvents`: binds entry `i`, given that
      `done` is what the entries before it registered. */
  method AddEntry(events: seq<(string, string)>, i: nat, ghost done: seq<Listener>, ghost log0: seq<Listener>,
                  el: JsValue, instance: JsValue, methods: set<string>, dom: Dom)
    returns (failure: Option<string>, ghost done': seq<Listener>)
    requires i < |events|
    requires dom.listeners == log0 + done
    requires var rest := BindAll(events[i..], el, instance, methods, dom.query);
      BindAll(events, el, instance, methods, dom.query) == Binding(done + rest.added, rest.failure)
    modifies dom
    ensures dom.listeners == log0 + done'
    ensures failure.Some? ==> BindAll(events, el, instance, methods, dom.query) == Binding(done', failure)
    ensures failure.None? ==> var rest := BindAll(events[i + 1..], el, instance, methods, dom.query);
      BindAll(events, el, instance, methods, dom.query) == Binding(done' + rest.added, rest.failure)
  {
    BindAllStep(events, i, done, el, instance, methods, dom.query);
    ghost var b := BindKey(events[i].0, events[i].1, el, instance, methods, dom.query);
    failure := AddKey(events[i].0, events[i].1, el, instance, methods, dom);
    done' := done + b.added;
  }

  /** `addEvents`: registers the listeners of `events` on `el` and on the
      elements its selectors match, appending each registration to the log. */
  method AddEvents(events: seq<(string, string)>, el: JsValue, instance: JsValue, methods: set<string>, dom: Dom)
    returns (failure: Option<string>)
    modifies dom
    ensures dom.listeners == old(dom.listeners) + BindAll(events, el, instance, methods, dom.query).added
    ensures failure == BindAll(events, el, instance, methods, dom.query).failure
  {
    var i := 0;
    ghost var done: seq<Listener> := [];
    assert events[i..] == events;
    while i < |events|
      invariant 0 <= i <= |events|
      invariant dom.listeners == old(dom.listeners) + done
      invariant var rest := BindAll(events[i..], el, instance, methods, dom.query);
        BindAll(events, el, instance, methods, dom.query) == Binding(done + rest.added, rest.failure)
    {
      failure, done := AddEntry(events, i, done, old(dom.listeners), el, instance, methods, dom);
      if failure.Some? {
        return;
      }
      i := i + 1;
    }
    assert events[i..] == [];
    return None;
  }
}

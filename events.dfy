/**
 * DefaultEventProcessor: the registry of script event handlers, from an
 * event source and an event name to the list of handlers subscribed to it.
 *
 * Event sources and handler targets are context instances compared by
 * reference (here: their reference number); event names are dictionary
 * keys compared exactly; handler method names are compared through `fold`,
 * the runtime's case-insensitive comparison. The method executor a target
 * hands out, and the call it makes, are not part of this model: handling
 * an event yields the calls it makes, in order.
 */
module Events {
  import opened Wrappers
  import opened Builtins
  import opened Values

  /** The object a handler is registered on: a script-driven object, or any other context instance. */
  datatype HandlerTarget = ScriptObject(ref: nat) | OtherInstance(ref: nat)

  /** A subscribed handler: the script object and the name of its method. */
  datatype Handler = Handler(target: nat, methodName: Text)

  /** One call of a handler method with the event's arguments. */
  datatype Invocation = Invocation(handler: Handler, args: seq<Value>)

  datatype EventError = InvalidArgumentType(argument: string)    // the argument that names no script object

  /** The handler list of each event of each source. */
  type Registrations = map<nat, map<Text, seq<Handler>>>

  predicate Matches(fold: Text -> Text, h: Handler, target: nat, methodName: Text)
  {
    h.target == target && fold(h.methodName) == fold(methodName)
  }

  predicate Subscribed(fold: Text -> Text, hs: seq<Handler>, target: nat, methodName: Text)
  {
    exists i :: 0 <= i < |hs| && Matches(fold, hs[i], target, methodName)
  }

  /** No two handlers of a list denote the same target and method. */
  predicate NoTwice(fold: Text -> Text, hs: seq<Handler>)
  {
    forall i, j :: 0 <= i < j < |hs| ==> !Matches(fold, hs[j], hs[i].target, hs[i].methodName)
  }

  // ---------------------------------------------------------------- HandlersList

  /** HandlersList.Add: a handler already in the list is not added again; a new one goes last. */
  function WithHandler(fold: Text -> Text, hs: seq<Handler>, target: nat, methodName: Text): (r: seq<Handler>)
    ensures Subscribed(fold, r, target, methodName)
    ensures hs <= r && |r| <= |hs| + 1
    ensures |r| == |hs| + 1 <==> !Subscribed(fold, hs, target, methodName)
  {
    if Subscribed(fold, hs, target, methodName) then hs
    else
      var r := hs + [Handler(target, methodName)];
      assert Matches(fold, r[|hs|], target, methodName);
      r
  }

  /** HandlersList.Remove: every handler of that target and method goes, the others keep their order. */
  function WithoutHandler(fold: Text -> Text, hs: seq<Handler>, target: nat, methodName: Text): (r: seq<Handler>)
    ensures |r| <= |hs|
    ensures forall i :: 0 <= i < |r| ==> !Matches(fold, r[i], target, methodName)
  {
    if |hs| == 0 then []
    else
      var rest := WithoutHandler(fold, hs[..|hs| - 1], target, methodName);
      var last := hs[|hs| - 1];
      if Matches(fold, last, target, methodName) then rest else rest + [last]
  }

  /** Removing from a list that has no such handler changes nothing. */
  lemma {:induction false} WithoutAbsentHandler(fold: Text -> Text, hs: seq<Handler>, target: nat, methodName: Text)
    requires !Subscribed(fold, hs, target, methodName)
    ensures WithoutHandler(fold, hs, target, methodName) == hs
  {
    if |hs| > 0 {
      var n := |hs| - 1;
      assert !Matches(fold, hs[n], target, methodName);
      assert !Subscribed(fold, hs[..n], target, methodName) by {
        forall i | 0 <= i < n ensures !Matches(fold, hs[..n][i], target, methodName) {
          assert hs[..n][i] == hs[i];
        }
      }
      WithoutAbsentHandler(fold, hs[..n], target, methodName);
      assert hs[..n] + [hs[n]] == hs;
    }
  }

  /** Every handler of another target or method survives a removal, and nothing else appears. */
  lemma {:induction false} WithoutHandlerKeeps(fold: Text -> Text, hs: seq<Handler>, target: nat, methodName: Text, h: Handler)
    ensures h in WithoutHandler(fold, hs, target, methodName) <==> h in hs && !Matches(fold, h, target, methodName)
  {
    if |hs| > 0 {
      var n := |hs| - 1;
      WithoutHandlerKeeps(fold, hs[..n], target, methodName, h);
      assert hs == hs[..n] + [hs[n]];
    }
  }

  /** Adding a handler twice (the second time under any spelling of the method name) is adding it once. */
  lemma AddTwice(fold: Text -> Text, hs: seq<Handler>, target: nat, m1: Text, m2: Text)
    requires fold(m1) == fold(m2)
    ensures WithHandler(fold, WithHandler(fold, hs, target, m1), target, m2) == WithHandler(fold, hs, target, m1)
  {
    var once := WithHandler(fold, hs, target, m1);
    var i :| 0 <= i < |once| && Matches(fold, once[i], target, m1);
    assert Matches(fold, once[i], target, m2);
  }

  /** Adding keeps a list free of repeated handlers. */
  lemma AddKeepsNoTwice(fold: Text -> Text, hs: seq<Handler>, target: nat, methodName: Text)
    requires NoTwice(fold, hs)
    ensures NoTwice(fold, WithHandler(fold, hs, target, methodName))
  {
    if !Subscribed(fold, hs, target, methodName) {
      var r := WithHandler(fold, hs, target, methodName);
      forall i, j | 0 <= i < j < |r| ensures !Matches(fold, r[j], r[i].target, r[i].methodName) {
        if j == |hs| {
          assert !Matches(fold, hs[i], target, methodName);
        }
      }
    }
  }

  /** Removing after adding is the same as removing alone. */
  lemma RemoveAfterAdd(fold: Text -> Text, hs: seq<Handler>, target: nat, methodName: Text)
    ensures WithoutHandler(fold, WithHandler(fold, hs, target, methodName), target, methodName)
      == WithoutHandler(fold, hs, target, methodName)
  {
    if !Subscribed(fold, hs, target, methodName) {
      var r := hs + [Handler(target, methodName)];
      assert r[..|hs|] == hs;
    }
  }

  // ---------------------------------------------------------------- the registry

  /** The events of a source (an empty table for an unknown source). */
  function EventsOf(reg: Registrations, source: nat): map<Text, seq<Handler>>
  {
    if source in reg then reg[source] else map[]
  }

  /** The handlers of an event of a source (none for an unknown source or event). */
  function HandlersIn(reg: Registrations, source: nat, eventName: Text): seq<Handler>
  {
    if source in reg && eventName in reg[source] then reg[source][eventName] else []
  }

  /** The registry after AddHandler with a script object: the tables of that source and event are made if missing. */
  function Adding(fold: Text -> Text, reg: Registrations, source: nat, eventName: Text, target: nat, methodName: Text): (r: Registrations)
    ensures source in r && eventName in r[source]
  {
    reg[source := EventsOf(reg, source)[eventName := WithHandler(fold, HandlersIn(reg, source, eventName), target, methodName)]]
  }

  /** The registry after RemoveHandler with a script object: an unknown source or event is left alone. */
  function Removing(fold: Text -> Text, reg: Registrations, source: nat, eventName: Text, target: nat, methodName: Text): (r: Registrations)
    ensures r.Keys == reg.Keys
  {
    if source in reg && eventName in reg[source] then
      reg[source := reg[source][eventName := WithoutHandler(fold, reg[source][eventName], target, methodName)]]
    else reg
  }

  /** AddHandler changes the handler list of its own source and event only. */
  lemma AddingIsolated(fold: Text -> Text, reg: Registrations, source: nat, eventName: Text, target: nat, methodName: Text,
                       s: nat, e: Text)
    ensures HandlersIn(Adding(fold, reg, source, eventName, target, methodName), s, e) ==
      if s == source && e == eventName then WithHandler(fold, HandlersIn(reg, source, eventName), target, methodName)
      else HandlersIn(reg, s, e)
  {
  }

  /** RemoveHandler changes the handler list of its own source and event only. */
  lemma RemovingIsolated(fold: Text -> Text, reg: Registrations, source: nat, eventName: Text, target: nat, methodName: Text,
                         s: nat, e: Text)
    ensures HandlersIn(Removing(fold, reg, source, eventName, target, methodName), s, e) ==
      if s == source && e == eventName then WithoutHandler(fold, HandlersIn(reg, source, eventName), target, methodName)
      else HandlersIn(reg, s, e)
  {
    if !(source in reg && eventName in reg[source]) && s == source && e == eventName {
      assert HandlersIn(reg, s, e) == [];
    }
  }

  /** Subscribing the same handler twice to an event leaves one entry for it. */
  lemma AddingTwice(fold: Text -> Text, reg: Registrations, source: nat, eventName: Text, target: nat, m1: Text, m2: Text)
    requires fold(m1) == fold(m2)
    ensures var once := Adding(fold, reg, source, eventName, target, m1);
      HandlersIn(Adding(fold, once, source, eventName, target, m2), source, eventName) == HandlersIn(once, source, eventName)
  {
    var once := Adding(fold, reg, source, eventName, target, m1);
    AddingIsolated(fold, reg, source, eventName, target, m1, source, eventName);
    AddingIsolated(fold, once, source, eventName, target, m2, source, eventName);
    AddTwice(fold, HandlersIn(reg, source, eventName), target, m1, m2);
  }

  class DefaultEventProcessor {
    /** The case-insensitive comparison of method names. */
    const fold: Text -> Text
    var registered: Registrations

    constructor (fold: Text -> Text)
      ensures this.fold == fold && registered == map[]
    {
      this.fold := fold;
      registered := map[];
    }

    /** AddHandler: only a script-driven object can handle events; its method joins the list of the source's event. */
    method AddHandler(eventSource: nat, eventName: Text, handlerTarget: HandlerTarget, handlerMethod: Text)
      returns (raised: Option<EventError>)
      modifies this
      ensures raised.Some? <==> handlerTarget.OtherInstance?
      ensures raised.Some? ==> raised.value == InvalidArgumentType("handlerTarget") && registered == old(registered)
      ensures raised.None? ==> registered == Adding(fold, old(registered), eventSource, eventName, handlerTarget.ref, handlerMethod)
    {
      if handlerTarget.OtherInstance? {
        return Some(InvalidArgumentType("handlerTarget"));
      }
      var handlers: map<Text, seq<Handler>>;
      if eventSource in registered {
        handlers := registered[eventSource];
      } else {
        handlers := map[];
        registered := registered[eventSource := handlers];
      }
      var handlersList: seq<Handler>;
      if eventName in handlers {
        handlersList := handlers[eventName];
      } else {
        handlersList := [];
      }
      handlersList := WithHandler(fold, handlersList, handlerTarget.ref, handlerMethod);
      registered := registered[eventSource := handlers[eventName := handlersList]];
      raised := None;
    }

    /** RemoveHandler: only a script-driven object can be named; an unknown source or event is ignored. */
    method RemoveHandler(eventSource: nat, eventName: Text, handlerTarget: HandlerTarget, handlerMethod: Text)
      returns (raised: Option<EventError>)
      modifies this
      ensures raised.Some? <==> handlerTarget.OtherInstance?
      ensures raised.Some? ==> raised.value == InvalidArgumentType("handlerTarget") && registered == old(registered)
      ensures raised.None? ==> registered == Removing(fold, old(registered), eventSource, eventName, handlerTarget.ref, handlerMethod)
    {
      if handlerTarget.OtherInstance? {
        return Some(InvalidArgumentType("handlerTarget"));
      }
      if eventSource !in registered {
        return None;
      }
      var handlers := registered[eventSource];
      if eventName in handlers {
        var handlersList := WithoutHandler(fold, handlers[eventName], handlerTarget.ref, handlerMethod);
        registered := registered[eventSource := handlers[eventName := handlersList]];
      }
      raised := None;
    }

    /** HandleEvent: each handler of the source's event is called with the arguments, in the order they were added. */
    method HandleEvent(eventSource: nat, eventName: Text, eventArgs: seq<Value>) returns (calls: seq<Invocation>)
      ensures |calls| == |HandlersIn(registered, eventSource, eventName)|
      ensures forall i :: 0 <= i < |calls| ==>
        calls[i] == Invocation(HandlersIn(registered, eventSource, eventName)[i], eventArgs)
    {
      calls := [];
      if eventSource !in registered {
        return;
      }
      var handlers := registered[eventSource];
      if eventName !in handlers {
        return;
      }
      var handlersList := handlers[eventName];
      for i := 0 to |handlersList|
        invariant |calls| == i
        invariant forall k :: 0 <= k < i ==> calls[k] == Invocation(handlersList[k], eventArgs)
      {
        calls := calls + [Invocation(handlersList[i], eventArgs)];
      }
    }
  }
}

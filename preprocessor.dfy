/**
 * PreprocessorHandlers: a chain of directive handlers that is itself a
 * directive handler. Handlers are objects compared by reference; the model
 * takes them as values of an equality type H. What a handler does when it
 * is notified or asked is not part of this model: the chain is given, as a
 * predicate, whether each handler is an instance of the requested type and
 * whether it accepts the directive.
 */
module Preprocessor {
  import opened Wrappers
  import opened Sequences

  /** The list after List.Remove: its first occurrence of h taken out, or the list unchanged. */
  function WithoutFirst<H(==)>(s: seq<H>, h: H): (r: seq<H>)
    ensures h !in s ==> r == s
    ensures |r| == |s| - (if h in s then 1 else 0)
  {
    if |s| == 0 then []
    else if s[0] == h then s[1..]
    else [s[0]] + WithoutFirst(s[1..], h)
  }

  /** Remove takes out exactly one occurrence of a handler that is present, and nothing else. */
  lemma {:induction false} WithoutFirstCounts<H>(s: seq<H>, h: H)
    ensures multiset(WithoutFirst(s, h)) == multiset(s) - multiset{h}
  {
    if |s| > 0 {
      assert s == [s[0]] + s[1..];
      if s[0] != h {
        WithoutFirstCounts(s[1..], h);
      }
    }
  }

  /** The handlers before the first occurrence keep their places; the ones after it move up by one. */
  lemma {:induction false} WithoutFirstSplits<H>(s: seq<H>, h: H, k: nat)
    requires k < |s| && s[k] == h && h !in s[..k]
    ensures WithoutFirst(s, h) == s[..k] + s[k + 1..]
  {
    if k > 0 {
      assert s[1..][..k - 1] == s[1..k];
      assert h !in s[1..][..k - 1];
      WithoutFirstSplits(s[1..], h, k - 1);
      assert s[..k] == [s[0]] + s[1..k];
    }
  }

  /** Removing a handler right after adding it, when it was not in the list, gives back the list. */
  lemma {:induction false} RemoveAfterAdd<H>(s: seq<H>, h: H)
    requires h !in s
    ensures WithoutFirst(s + [h], h) == s
  {
    WithoutFirstSplits(s + [h], h, |s|);
    assert (s + [h])[..|s|] == s;
  }

  datatype ModuleEvent = ModuleEnter | ModuleLeave

  class PreprocessorHandlers<H(==)> {
    /** The handlers, in the order they were added. */
    var handlers: seq<H>

    constructor ()
      ensures handlers == []
    {
      handlers := [];
    }

    /** Add: the handler goes to the end of the chain. */
    method Add(h: H)
      modifies this
      ensures handlers == old(handlers) + [h]
    {
      handlers := handlers + [h];
    }

    /** Remove: the first occurrence of the handler leaves the chain. */
    method Remove(h: H)
      modifies this
      ensures handlers == WithoutFirst(old(handlers), h)
    {
      handlers := WithoutFirst(handlers, h);
    }

    /** Get: the first handler that is an instance of the type, or none (null). */
    function Get(isInstance: H -> bool): (r: Option<H>)
      reads this
      ensures r.Some? ==> r.value in handlers && isInstance(r.value)
      ensures r.Some? ==> exists i :: (0 <= i < |handlers| && handlers[i] == r.value
        && forall j :: 0 <= j < i ==> !isInstance(handlers[j]))
      ensures r.None? <==> forall j :: 0 <= j < |handlers| ==> !isInstance(handlers[j])
    {
      FirstWhereIsFirst(isInstance, handlers);
      var i := FirstWhere(isInstance, handlers);
      if i < 0 then None else Some(handlers[i])
    }

    /** The broadcast both module events make: the event is sent to every handler, in chain order. */
    method Broadcast(ev: ModuleEvent) returns (sent: seq<(H, ModuleEvent)>)
      ensures |sent| == |handlers|
      ensures forall i :: 0 <= i < |sent| ==> sent[i] == (handlers[i], ev)
    {
      sent := [];
      for i := 0 to |handlers|
        invariant |sent| == i
        invariant forall k :: 0 <= k < i ==> sent[k] == (handlers[k], ev)
      {
        sent := sent + [(handlers[i], ev)];
      }
    }

    /** OnModuleEnter: every handler is told the module starts, in chain order. */
    method OnModuleEnter() returns (sent: seq<(H, ModuleEvent)>)
      ensures |sent| == |handlers|
      ensures forall i :: 0 <= i < |sent| ==> sent[i] == (handlers[i], ModuleEnter)
    {
      sent := Broadcast(ModuleEnter);
    }

    /** OnModuleLeave: every handler is told the module ends, in chain order. */
    method OnModuleLeave() returns (sent: seq<(H, ModuleEvent)>)
      ensures |sent| == |handlers|
      ensures forall i :: 0 <= i < |sent| ==> sent[i] == (handlers[i], ModuleLeave)
    {
      sent := Broadcast(ModuleLeave);
    }

    /** HandleDirective (Enumerable.Any): handled when some handler accepts; the handlers asked
        are those up to the first that accepts, or all of them. */
    function HandleDirective(accepts: H -> bool): (r: (bool, seq<H>))
      reads this
      ensures r.0 <==> exists i :: 0 <= i < |handlers| && accepts(handlers[i])
      ensures r.1 <= handlers
      ensures r.0 ==> |r.1| > 0 && accepts(r.1[|r.1| - 1])
      ensures forall j :: 0 <= j < |r.1| - (if r.0 then 1 else 0) ==> !accepts(r.1[j])
      ensures !r.0 ==> r.1 == handlers
    {
      FirstWhereIsFirst(accepts, handlers);
      var i := FirstWhere(accepts, handlers);
      if i < 0 then (false, handlers) else (true, handlers[..i + 1])
    }
  }
}

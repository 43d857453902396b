/**
 * CompilerServiceBase: the front of the compiler that the engine talks to.
 * It pushes one symbol scope of its own onto the module compiler context the
 * first time it needs one, and pops it again when a compilation ends (also
 * when it fails) or when defining a variable fails.
 *
 * The module compiler context and the compilers behind CompileInternal,
 * CompileBatchInternal and CompileExpressionInternal are not part of this
 * model: each call to them is recorded as a request, with the scope that is
 * current for it, and their answer is a parameter.
 */
module CompilerService {
  import opened Wrappers
  import opened Builtins

  type ScopeId = nat
  type SourceId = nat
  type ImageId = nat

  /** SymbolType: the service tests for Variable only. */
  datatype SymbolType = Variable | ContextProperty

  /** An exception raised by the context or a compiler. */
  datatype Failure = Failure(code: nat)

  /** What the service asked of the context or a compiler, with the scope on top of the context. */
  datatype Request =
    | DefineContextVariable(name: Text, alias: Text, scope: ScopeId)
    | DefineContextProperty(name: Text, alias: Text, scope: ScopeId)
    | DefineContextMethod(signature: nat, scope: ScopeId)
    | CompileModule(source: SourceId, constants: seq<Text>, scope: ScopeId)
    | CompileBatchModule(source: SourceId, constants: seq<Text>, scope: ScopeId)
    | CompileExpressionModule(source: SourceId, contextScopes: seq<ScopeId>)

  class CompilerServiceBase {
    /** The scope stack of the module compiler context, outermost first. */
    var scopes: seq<ScopeId>
    /** The stack as the outer context hands it over. */
    ghost const outer: seq<ScopeId>
    /** `_scope`: the scope this service pushed, if any. */
    var scope: Option<ScopeId>
    /** The identity the next `new SymbolScope()` gets. */
    var nextScope: ScopeId
    var preprocessorVariables: seq<Text>
    var requests: seq<Request>

    /** The service's own scope, when it has one, is the top of the context stack, above the outer
        context's scopes: at most one scope is pushed until it is cleared. */
    ghost predicate Valid()
      reads this
    {
      scopes == outer + (if scope.Some? then [scope.value] else [])
    }

    constructor (outerScopes: seq<ScopeId>)
      ensures Valid() && scope.None? && scopes == outerScopes && outer == outerScopes && nextScope == 0
      ensures preprocessorVariables == [] && requests == []
    {
      scopes := outerScopes;
      outer := outerScopes;
      scope := None;
      nextScope := 0;
      preprocessorVariables := [];
      requests := [];
    }

    /** RegisterScopeIfNeeded: a new scope is pushed only when the service has none. */
    method RegisterScopeIfNeeded()
      requires Valid()
      modifies this
      ensures Valid() && scope.Some?
      ensures old(scope).Some? ==> scope == old(scope) && scopes == old(scopes) && nextScope == old(nextScope)
      ensures old(scope).None? ==> (scope == Some(old(nextScope)) && scopes == old(scopes) + [old(nextScope)]
        && nextScope == old(nextScope) + 1)
      ensures preprocessorVariables == old(preprocessorVariables) && requests == old(requests)
    {
      if scope.None? {
        scope := Some(nextScope);
        scopes := scopes + [nextScope];
        nextScope := nextScope + 1;
      }
    }

    /** The pop and the clearing done by the `finally` and `catch` blocks. */
    method PopAndClear()
      requires Valid() && scope.Some?
      modifies this
      ensures Valid() && scope.None? && scopes == outer
      ensures scopes == old(scopes)[..|old(scopes)| - 1]
      ensures nextScope == old(nextScope)
      ensures preprocessorVariables == old(preprocessorVariables) && requests == old(requests)
    {
      scopes := scopes[..|scopes| - 1];
      scope := None;
    }

    /** DefineVariable: a variable for SymbolType.Variable, a property otherwise, in the service's
        scope; the context's code index is returned. When the context raises, the scope is popped
        and cleared before the exception goes on. */
    method DefineVariable(name: Text, alias: Text, kind: SymbolType, answer: Result<nat, Failure>)
      returns (r: Result<nat, Failure>)
      requires Valid()
      modifies this
      ensures Valid() && r == answer
      ensures var s := if old(scope).Some? then old(scope).value else old(nextScope);
        requests == old(requests) + [if kind == Variable then DefineContextVariable(name, alias, s)
                                     else DefineContextProperty(name, alias, s)]
        && (answer.Ok? ==> scope == Some(s) && scopes == outer + [s])
      ensures answer.Err? ==> scope.None? && scopes == outer
      ensures nextScope == (if old(scope).Some? then old(nextScope) else old(nextScope) + 1)
      ensures preprocessorVariables == old(preprocessorVariables)
    {
      RegisterScopeIfNeeded();
      if kind == Variable {
        requests := requests + [DefineContextVariable(name, alias, scope.value)];
      } else {
        requests := requests + [DefineContextProperty(name, alias, scope.value)];
      }
      if answer.Err? {
        PopAndClear();
      }
      r := answer;
    }

    /** DefineMethod: the method goes to the service's scope; a failure leaves the scope in place. */
    method DefineMethod(signature: nat, answer: Result<nat, Failure>) returns (r: Result<nat, Failure>)
      requires Valid()
      modifies this
      ensures Valid() && r == answer
      ensures var s := if old(scope).Some? then old(scope).value else old(nextScope);
        requests == old(requests) + [DefineContextMethod(signature, s)]
        && scope == Some(s) && scopes == outer + [s]
      ensures nextScope == (if old(scope).Some? then old(nextScope) else old(nextScope) + 1)
      ensures preprocessorVariables == old(preprocessorVariables)
    {
      RegisterScopeIfNeeded();
      requests := requests + [DefineContextMethod(signature, scope.value)];
      r := answer;
    }

    /** DefinePreprocessorValue: the name is appended to the preprocessor constants. */
    method DefinePreprocessorValue(name: Text)
      requires Valid()
      modifies this
      ensures Valid() && preprocessorVariables == old(preprocessorVariables) + [name]
      ensures scope == old(scope) && scopes == old(scopes) && requests == old(requests)
    {
      preprocessorVariables := preprocessorVariables + [name];
    }

    /** Compile: the module is compiled with the preprocessor constants in the service's scope,
        and whatever the compiler answers, the scope is popped and cleared afterwards. */
    method Compile(source: SourceId, answer: Result<ImageId, Failure>) returns (r: Result<ImageId, Failure>)
      requires Valid()
      modifies this
      ensures Valid() && r == answer
      ensures scope.None? && scopes == outer
      ensures var s := if old(scope).Some? then old(scope).value else old(nextScope);
        requests == old(requests) + [CompileModule(source, preprocessorVariables, s)]
      ensures preprocessorVariables == old(preprocessorVariables)
    {
      RegisterScopeIfNeeded();
      requests := requests + [CompileModule(source, preprocessorVariables, scope.value)];
      PopAndClear();
      r := answer;
    }

    /** CompileExpression: compiled against the context as it stands; no scope is pushed or popped. */
    method CompileExpression(source: SourceId, answer: Result<ImageId, Failure>) returns (r: Result<ImageId, Failure>)
      requires Valid()
      modifies this
      ensures Valid() && r == answer
      ensures scope == old(scope) && scopes == old(scopes) && nextScope == old(nextScope)
      ensures requests == old(requests) + [CompileExpressionModule(source, scopes)]
      ensures preprocessorVariables == old(preprocessorVariables)
    {
      requests := requests + [CompileExpressionModule(source, scopes)];
      r := answer;
    }

    /** CompileBatch: as Compile, with the batch compiler. */
    method CompileBatch(source: SourceId, answer: Result<ImageId, Failure>) returns (r: Result<ImageId, Failure>)
      requires Valid()
      modifies this
      ensures Valid() && r == answer
      ensures scope.None? && scopes == outer
      ensures var s := if old(scope).Some? then old(scope).value else old(nextScope);
        requests == old(requests) + [CompileBatchModule(source, preprocessorVariables, s)]
      ensures preprocessorVariables == old(preprocessorVariables)
    {
      RegisterScopeIfNeeded();
      requests := requests + [CompileBatchModule(source, preprocessorVariables, scope.value)];
      PopAndClear();
      r := answer;
    }
  }

  /** Definitions made one after another share one scope: after a variable and a method are
      defined, the service has pushed exactly one scope, and both went into it. */
  method DefinitionsShareOneScope(names: seq<Text>, outerScopes: seq<ScopeId>) returns (svc: CompilerServiceBase)
    requires |names| > 0
    ensures svc.Valid() && svc.scope == Some(0) && svc.scopes == outerScopes + [0]
    ensures |svc.requests| == |names| + 1
    ensures forall i :: 0 <= i < |names| ==> svc.requests[i] == DefineContextVariable(names[i], names[i], 0)
    ensures svc.requests[|names|] == DefineContextMethod(0, 0)
  {
    svc := new CompilerServiceBase(outerScopes);
    var i := 0;
    while i < |names|
      invariant 0 <= i <= |names|
      invariant svc.Valid() && svc.outer == outerScopes && svc.nextScope == (if i == 0 then 0 else 1)
      invariant i > 0 ==> svc.scope == Some(0)
      invariant i == 0 ==> svc.scope.None?
      invariant |svc.requests| == i
      invariant forall k :: 0 <= k < i ==> svc.requests[k] == DefineContextVariable(names[k], names[k], 0)
    {
      var _ := svc.DefineVariable(names[i], names[i], Variable, Ok(i));
      i := i + 1;
    }
    var _ := svc.DefineMethod(0, Ok(|names|));
  }
}

/**
 * LoadedModule: a compiled module image made ready for the machine. The
 * tables of the image are copied, each constant definition is parsed into a
 * value, and every annotation parameter that refers to a constant gets that
 * constant as its run-time value: the module's own annotations, each
 * variable's, each method's, and those of each method's first ArgCount
 * parameters. A null annotation or parameter array is skipped; an index out
 * of range raises, and then no module is produced.
 *
 * ValueFactory.Parse is a parameter. The commands and symbol bindings are
 * carried unchanged, so their types are parameters too.
 */
module LoadedModules {
  import opened Wrappers
  import opened Builtins
  import opened Values

  /** AnnotationParameter.UNDEFINED_VALUE_INDEX: the parameter has no value. */
  const UndefinedValueIndex: int := -1

  datatype AnnotationParameter = AnnotationParameter(name: Text, valueIndex: int, runtimeValue: Option<Value>)

  /** An annotation; its parameter array may be null (None). */
  datatype AnnotationDefinition = AnnotationDefinition(name: Text, parameters: Option<seq<AnnotationParameter>>)

  /** An annotation array, which may be null (None). */
  type Annotations = Option<seq<AnnotationDefinition>>

  datatype ParameterDefinition = ParameterDefinition(name: Text, annotations: Annotations)
  datatype MethodSignature = MethodSignature(name: Text, argCount: int, params: seq<ParameterDefinition>, annotations: Annotations)
  datatype MethodDescriptor = MethodDescriptor(signature: MethodSignature, entryPoint: int)
  datatype VariableInfo = VariableInfo(name: Text, annotations: Annotations)
  datatype ConstantDefinition = ConstantDefinition(typeCode: nat, presentation: Text)
  datatype ExportedSymbol = ExportedSymbol(name: Text, index: int)

  datatype ModuleImage<C, B> = ModuleImage(
    code: seq<C>, entryMethodIndex: int, methodRefs: seq<B>, variableRefs: seq<B>,
    methods: seq<MethodDescriptor>, constants: seq<ConstantDefinition>, variables: seq<VariableInfo>,
    exportedProperties: seq<ExportedSymbol>, exportedMethods: seq<ExportedSymbol>,
    annotations: seq<AnnotationDefinition>, loadAddress: int)

  /** IndexOutOfRangeException: a constant or a parameter index outside its array. */
  datatype LoadError = IndexOutOfRange

  // ---------------------------------------------------------------- resolution, as a specification

  /** A parameter's index is usable: undefined, or inside the constant table. */
  predicate IndexUsable(p: AnnotationParameter, constantCount: nat)
  {
    p.valueIndex == UndefinedValueIndex || 0 <= p.valueIndex < constantCount
  }

  /** Every parameter of every annotation in the array has a usable index. */
  predicate AnnotationsResolvable(a: Annotations, constantCount: nat)
  {
    a.None? || forall i :: 0 <= i < |a.value| ==> ParametersResolvable(a.value[i].parameters, constantCount)
  }

  predicate ParametersResolvable(ps: Option<seq<AnnotationParameter>>, constantCount: nat)
  {
    ps.None? || forall j :: 0 <= j < |ps.value| ==> IndexUsable(ps.value[j], constantCount)
  }

  /** A parameter after resolution: the constant it refers to becomes its run-time value. */
  function ResolvedParameter(p: AnnotationParameter, constants: seq<Value>): AnnotationParameter
  {
    if p.valueIndex != UndefinedValueIndex && 0 <= p.valueIndex < |constants| then
      p.(runtimeValue := Some(constants[p.valueIndex]))
    else p
  }

  function ResolvedParameters(ps: Option<seq<AnnotationParameter>>, constants: seq<Value>): (r: Option<seq<AnnotationParameter>>)
    ensures r.None? <==> ps.None?
    ensures r.Some? ==> |r.value| == |ps.value|
  {
    if ps.None? then None
    else Some(seq(|ps.value|, j requires 0 <= j < |ps.value| => ResolvedParameter(ps.value[j], constants)))
  }

  /** An annotation array after resolution. */
  function ResolvedAnnotations(a: Annotations, constants: seq<Value>): (r: Annotations)
    ensures r.None? <==> a.None?
    ensures r.Some? ==> |r.value| == |a.value|
  {
    if a.None? then None
    else Some(seq(|a.value|, i requires 0 <= i < |a.value| =>
      a.value[i].(parameters := ResolvedParameters(a.value[i].parameters, constants))))
  }

  /** What resolution does to one parameter: a parameter with a defined index takes the constant
      at that index as its run-time value; every other parameter, and the name and index of every
      parameter, stay as they were. Annotations keep their names and the null arrays stay null. */
  lemma ResolutionPerParameter(a: Annotations, constants: seq<Value>, i: nat, j: nat)
    requires AnnotationsResolvable(a, |constants|)
    requires a.Some? && i < |a.value| && a.value[i].parameters.Some? && j < |a.value[i].parameters.value|
    ensures var r := ResolvedAnnotations(a, constants);
      var p := a.value[i].parameters.value[j];
      var q := r.value[i].parameters.value[j];
      r.value[i].name == a.value[i].name
      && q.name == p.name && q.valueIndex == p.valueIndex
      && (p.valueIndex != UndefinedValueIndex ==> 0 <= p.valueIndex < |constants| && q.runtimeValue == Some(constants[p.valueIndex]))
      && (p.valueIndex == UndefinedValueIndex ==> q == p)
  {
    assert ParametersResolvable(a.value[i].parameters, |constants|);
  }

  /** Resolving twice against the same constants is resolving once. */
  lemma ResolutionIdempotent(a: Annotations, constants: seq<Value>)
    ensures ResolvedAnnotations(ResolvedAnnotations(a, constants), constants) == ResolvedAnnotations(a, constants)
  {
    if a.Some? {
      var once := ResolvedAnnotations(a, constants);
      var twice := ResolvedAnnotations(once, constants);
      forall i | 0 <= i < |a.value|
        ensures twice.value[i] == once.value[i]
      {
        var ps := a.value[i].parameters;
        if ps.Some? {
          var qs := once.value[i].parameters.value;
          forall j | 0 <= j < |qs|
            ensures ResolvedParameter(qs[j], constants) == qs[j]
          {
          }
          assert ResolvedParameters(once.value[i].parameters, constants).value == qs;
        }
      }
      assert twice.value == once.value;
    }
  }

  /** Every method counts no more parameters than its signature has: the parameter loop never
      reads past the parameter array. */
  predicate MethodsIndexable(methods: seq<MethodDescriptor>)
  {
    forall m :: 0 <= m < |methods| ==> methods[m].signature.argCount <= |methods[m].signature.params|
  }

  /** The whole image can be resolved against `count` constants. */
  predicate ImageResolvable<C, B>(image: ModuleImage<C, B>, count: nat)
  {
    AnnotationsResolvable(Some(image.annotations), count)
    && (forall v :: 0 <= v < |image.variables| ==> AnnotationsResolvable(image.variables[v].annotations, count))
    && MethodsIndexable(image.methods)
    && (forall m :: 0 <= m < |image.methods| ==> MethodResolvable(image.methods[m].signature, count))
  }

  predicate MethodResolvable(s: MethodSignature, count: nat)
  {
    AnnotationsResolvable(s.annotations, count)
    && forall j :: 0 <= j < s.argCount && j < |s.params| ==> AnnotationsResolvable(s.params[j].annotations, count)
  }

  function ResolvedVariable(v: VariableInfo, constants: seq<Value>): VariableInfo
  {
    v.(annotations := ResolvedAnnotations(v.annotations, constants))
  }

  /** A signature after resolution: its own annotations and those of its first ArgCount
      parameters; the later parameters are not visited. */
  function ResolvedSignature(s: MethodSignature, constants: seq<Value>): (r: MethodSignature)
    ensures |r.params| == |s.params|
  {
    s.(annotations := ResolvedAnnotations(s.annotations, constants),
       params := seq(|s.params|, j requires 0 <= j < |s.params| =>
         if j < s.argCount then s.params[j].(annotations := ResolvedAnnotations(s.params[j].annotations, constants))
         else s.params[j]))
  }

  function ResolvedMethod(m: MethodDescriptor, constants: seq<Value>): MethodDescriptor
  {
    m.(signature := ResolvedSignature(m.signature, constants))
  }

  /** The constant table: entry i is parsed from definition i. */
  function ParsedConstants(defs: seq<ConstantDefinition>, parse: (Text, nat) -> Value): (r: seq<Value>)
    ensures |r| == |defs|
    ensures forall i :: 0 <= i < |defs| ==> r[i] == parse(defs[i].presentation, defs[i].typeCode)
  {
    seq(|defs|, i requires 0 <= i < |defs| => parse(defs[i].presentation, defs[i].typeCode))
  }

  // ---------------------------------------------------------------- the loops

  /** EvaluateAnnotationParametersValues: both loops over the annotation array, writing each
      referenced constant into its parameter; an index outside the constant table raises. */
  method EvaluateAnnotationParametersValues(annotations: Annotations, constants: seq<Value>)
    returns (r: Result<Annotations, LoadError>)
    ensures r.Ok? <==> AnnotationsResolvable(annotations, |constants|)
    ensures r.Ok? ==> r.value == ResolvedAnnotations(annotations, constants)
    ensures r.Err? ==> r.error == IndexOutOfRange
  {
    if annotations.None? {
      return Ok(None);
    }
    var items := annotations.value;
    var i := 0;
    while i < |items|
      invariant 0 <= i <= |items|
      invariant |items| == |annotations.value|
      invariant forall k :: 0 <= k < i ==> ParametersResolvable(annotations.value[k].parameters, |constants|)
      invariant forall k :: 0 <= k < i ==>
        items[k] == annotations.value[k].(parameters := ResolvedParameters(annotations.value[k].parameters, constants))
      invariant forall k :: i <= k < |items| ==> items[k] == annotations.value[k]
    {
      var parameters := items[i].parameters;
      if parameters.Some? {
        var ps := parameters.value;
        var j := 0;
        while j < |ps|
          invariant 0 <= j <= |ps| && |ps| == |parameters.value|
          invariant forall k :: 0 <= k < j ==> IndexUsable(parameters.value[k], |constants|)
          invariant forall k :: 0 <= k < j ==> ps[k] == ResolvedParameter(parameters.value[k], constants)
          invariant forall k :: j <= k < |ps| ==> ps[k] == parameters.value[k]
        {
          var pa := ps[j];
          if pa.valueIndex != UndefinedValueIndex {
            if pa.valueIndex < 0 || pa.valueIndex >= |constants| {
              assert !ParametersResolvable(annotations.value[i].parameters, |constants|);
              return Err(IndexOutOfRange);
            }
            ps := ps[j := pa.(runtimeValue := Some(constants[pa.valueIndex]))];
          }
          j := j + 1;
        }
        assert ps == ResolvedParameters(parameters, constants).value;
        items := items[i := items[i].(parameters := Some(ps))];
      }
      i := i + 1;
    }
    r := Ok(Some(items));
    assert items == ResolvedAnnotations(annotations, constants).value;
  }

  /** The parameter loop of ResolveAnnotationConstants for one method: its first ArgCount
      parameters in order; Params[j] beyond the array raises. */
  method ResolveSignature(s: MethodSignature, constants: seq<Value>) returns (r: Result<MethodSignature, LoadError>)
    ensures r.Ok? <==> s.argCount <= |s.params| && MethodResolvable(s, |constants|)
    ensures r.Ok? ==> r.value == ResolvedSignature(s, constants)
  {
    var own := EvaluateAnnotationParametersValues(s.annotations, constants);
    if own.Err? {
      return Err(own.error);
    }
    var params := s.params;
    var j := 0;
    while j < s.argCount
      invariant 0 <= j <= (if s.argCount < 0 then 0 else s.argCount) && |params| == |s.params|
      invariant j <= |s.params|
      invariant forall k :: 0 <= k < j ==> AnnotationsResolvable(s.params[k].annotations, |constants|)
      invariant forall k :: 0 <= k < j ==> params[k] == s.params[k].(annotations := ResolvedAnnotations(s.params[k].annotations, constants))
      invariant forall k :: j <= k < |params| ==> params[k] == s.params[k]
    {
      if j >= |params| {
        return Err(IndexOutOfRange);
      }
      var pr := EvaluateAnnotationParametersValues(params[j].annotations, constants);
      if pr.Err? {
        return Err(pr.error);
      }
      params := params[j := params[j].(annotations := pr.value)];
      j := j + 1;
    }
    r := Ok(s.(annotations := own.value, params := params));
    assert r.value.params == ResolvedSignature(s, constants).params;
  }

  class LoadedModule<C, B> {
    const code: seq<C>
    const entryMethodIndex: int
    const methodRefs: seq<B>
    const variableRefs: seq<B>
    const methods: seq<MethodDescriptor>
    const constants: array<Value>
    const variables: seq<VariableInfo>
    const exportedProperties: seq<ExportedSymbol>
    const exportedMethods: seq<ExportedSymbol>
    const annotations: seq<AnnotationDefinition>
    const loadAddress: int

    /** The fields of a module made from `image`: copies of its tables, with the annotations
        resolved against `table`. */
    ghost predicate MadeFrom(image: ModuleImage<C, B>, table: seq<Value>)
      reads constants
    {
      code == image.code && entryMethodIndex == image.entryMethodIndex
      && methodRefs == image.methodRefs && variableRefs == image.variableRefs
      && constants[..] == table
      && exportedProperties == image.exportedProperties && exportedMethods == image.exportedMethods
      && loadAddress == image.loadAddress
      && Some(annotations) == ResolvedAnnotations(Some(image.annotations), table)
      && |variables| == |image.variables|
      && (forall v :: 0 <= v < |variables| ==> variables[v] == ResolvedVariable(image.variables[v], table))
      && |methods| == |image.methods|
      && (forall m :: 0 <= m < |methods| ==> methods[m] == ResolvedMethod(image.methods[m], table))
    }

    constructor (image: ModuleImage<C, B>, table: array<Value>, annotations: seq<AnnotationDefinition>,
                 variables: seq<VariableInfo>, methods: seq<MethodDescriptor>)
      ensures code == image.code && entryMethodIndex == image.entryMethodIndex
      ensures methodRefs == image.methodRefs && variableRefs == image.variableRefs
      ensures exportedProperties == image.exportedProperties && exportedMethods == image.exportedMethods
      ensures loadAddress == image.loadAddress && constants == table
      ensures this.annotations == annotations && this.variables == variables && this.methods == methods
    {
      code := image.code;
      entryMethodIndex := image.entryMethodIndex;
      methodRefs := image.methodRefs;
      variableRefs := image.variableRefs;
      this.methods := methods;
      constants := table;
      this.variables := variables;
      exportedProperties := image.exportedProperties;
      exportedMethods := image.exportedMethods;
      this.annotations := annotations;
      loadAddress := image.loadAddress;
    }
  }

  /** The LoadedModule constructor: the constant table is filled by parsing each definition in
      turn, then the annotation constants are resolved; an index out of range raises and no
      module is produced. */
  method Load<C, B>(image: ModuleImage<C, B>, parse: (Text, nat) -> Value)
    returns (r: Result<LoadedModule<C, B>, LoadError>)
    ensures r.Ok? <==> ImageResolvable(image, |image.constants|)
    ensures r.Ok? ==> (fresh(r.value) && fresh(r.value.constants)
      && r.value.MadeFrom(image, ParsedConstants(image.constants, parse)))
  {
    var table := new Value[|image.constants|];
    for i := 0 to |image.constants|
      invariant forall k :: 0 <= k < i ==> table[k] == parse(image.constants[k].presentation, image.constants[k].typeCode)
    {
      table[i] := parse(image.constants[i].presentation, image.constants[i].typeCode);
    }
    ghost var parsed := ParsedConstants(image.constants, parse);
    assert table[..] == parsed;
    var values := table[..];

    var moduleAnnotations := EvaluateAnnotationParametersValues(Some(image.annotations), values);
    if moduleAnnotations.Err? {
      return Err(moduleAnnotations.error);
    }

    var variables := image.variables;
    for v := 0 to |variables|
      invariant |variables| == |image.variables| && table[..] == values
      invariant forall k :: 0 <= k < v ==> AnnotationsResolvable(image.variables[k].annotations, |values|)
      invariant forall k :: 0 <= k < v ==> variables[k] == ResolvedVariable(image.variables[k], values)
      invariant forall k :: v <= k < |variables| ==> variables[k] == image.variables[k]
    {
      var a := EvaluateAnnotationParametersValues(variables[v].annotations, values);
      if a.Err? {
        return Err(a.error);
      }
      variables := variables[v := variables[v].(annotations := a.value)];
    }

    var methods := image.methods;
    for m := 0 to |methods|
      invariant |methods| == |image.methods| && table[..] == values
      invariant forall k :: 0 <= k < m ==> image.methods[k].signature.argCount <= |image.methods[k].signature.params|
      invariant forall k :: 0 <= k < m ==> MethodResolvable(image.methods[k].signature, |values|)
      invariant forall k :: 0 <= k < m ==> methods[k] == ResolvedMethod(image.methods[k], values)
      invariant forall k :: m <= k < |methods| ==> methods[k] == image.methods[k]
    {
      var s := ResolveSignature(methods[m].signature, values);
      if s.Err? {
        assert !MethodsIndexable(image.methods) || !MethodResolvable(image.methods[m].signature, |values|);
        return Err(s.error);
      }
      methods := methods[m := methods[m].(signature := s.value)];
    }

    var loaded := new LoadedModule(image, table, moduleAnnotations.value.value, variables, methods);
    assert loaded.constants[..] == parsed;
    r := Ok(loaded);
  }
}

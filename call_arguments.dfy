/**
 * The argument lists the machine builds for calls into runtime contexts
 * (MachineInstance.CallContext and PrepareContextCallArguments): padding of
 * a fixed-signature call with the skipped-argument marker, and the checks
 * and conversions made for a call resolved by name on an object.
 */
module CallArguments {
  import opened Wrappers
  import opened Values
  import opened MachineState

  // ---------------------------------------------------------------- CallContext

  /** CallContext: a context with dynamic signatures gets the arguments as they are; any other
      gets an array of the declared length, the arguments first and the skipped marker after.
      More arguments than declared overrun that array. */
  function PaddedArguments(args: seq<Value>, declared: nat, dynamic: bool): Result<seq<Value>, Fault>
  {
    if dynamic then Ok(args)
    else if |args| > declared then Err(IndexOutOfRange)
    else Ok(args + seq(declared - |args|, _ => Skipped))
  }

  /** The two copy loops of CallContext. */
  method PadArguments(args: seq<Value>, declared: nat, dynamic: bool) returns (r: Result<seq<Value>, Fault>)
    ensures r == PaddedArguments(args, declared, dynamic)
  {
    if dynamic {
      return Ok(args);
    }
    var realArgs := seq(declared, _ => Skipped);
    var i := 0;
    while i < |args|
      invariant 0 <= i <= |args| && |realArgs| == declared
      invariant i <= declared
      invariant realArgs[..i] == args[..i]
      invariant forall k :: i <= k < declared ==> realArgs[k] == Skipped
    {
      if i >= declared {
        return Err(IndexOutOfRange);
      }
      realArgs := realArgs[i := args[i]];
      i := i + 1;
    }
    // the second loop writes the marker into the slots the first one did not reach
    while i < declared
      invariant |args| <= i <= declared && |realArgs| == declared
      invariant realArgs[..|args|] == args
      invariant forall k :: |args| <= k < declared ==> realArgs[k] == Skipped
    {
      realArgs := realArgs[i := Skipped];
      i := i + 1;
    }
    assert realArgs == args + seq(declared - |args|, _ => Skipped);
    r := Ok(realArgs);
  }

  /** A fixed-signature call gets exactly the declared number of arguments: those passed, in
      order, then the skipped marker. */
  lemma PaddingRules(args: seq<Value>, declared: nat)
    requires |args| <= declared
    ensures var r := PaddedArguments(args, declared, false);
      r.Ok? && |r.value| == declared && r.value[..|args|] == args
      && (forall k :: |args| <= k < declared ==> r.value[k] == Skipped)
  {
    assert (args + seq(declared - |args|, _ => Skipped))[..|args|] == args;
  }

  // ---------------------------------------------------------------- PrepareContextCallArguments

  /** A parameter of a context method: passed by reference, and whether it has a default. */
  datatype ContextParam = ContextParam(isByRef: bool, hasDefault: bool)

  /** A slot of the argument array: null, a value, or a new variable holding a value. */
  datatype PreparedArg = NullArg | Pass(value: Value) | NewVariable(value: Value)

  /** Some passed argument is skipped where the parameter has no default. */
  predicate MissesArgument(factArgs: seq<Value>, params: seq<ContextParam>)
    requires |factArgs| <= |params|
  {
    exists i :: 0 <= i < |factArgs| && factArgs[i].Skipped? && !params[i].hasDefault
  }

  /** Some parameter after the passed ones has no default. */
  predicate LacksTrailing(passed: nat, params: seq<ContextParam>)
  {
    exists j :: passed <= j < |params| && !params[j].hasDefault
  }

  /** The slot for one passed argument of a fixed-signature method. */
  function FixedSlot(v: Value, p: ContextParam, cells: seq<Value>): PreparedArg
  {
    if v.Skipped? then NullArg
    else if p.isByRef then (if v.Ref? then Pass(v) else NewVariable(v))
    else Pass(RawValue(v, cells))
  }

  /** PrepareContextCallArguments after the arguments and the object are popped. Dynamic
      signatures: the arguments as passed, a skipped one as null. Fixed signatures: too many
      arguments, a skipped argument without a default, or an omitted trailing parameter without
      a default raise, checked in that order; otherwise by-reference parameters get a variable
      and the others the raw value, and there is one slot per declared parameter. */
  function PreparedArguments(factArgs: seq<Value>, dynamic: bool, params: seq<ContextParam>, cells: seq<Value>)
    : Result<seq<PreparedArg>, Exc>
  {
    if dynamic then Ok(seq(|factArgs|, i requires 0 <= i < |factArgs| =>
                            if factArgs[i].Skipped? then NullArg else Pass(factArgs[i])))
    else if |factArgs| > |params| then Err(TooManyArgumentsPassed)
    else if MissesArgument(factArgs, params) then Err(MissedArgument)
    else if LacksTrailing(|factArgs|, params) then Err(TooFewArgumentsPassed)
    else Ok(seq(|params|, i requires 0 <= i < |params| =>
                 if i < |factArgs| then FixedSlot(factArgs[i], params[i], cells) else NullArg))
  }

  /** The argument loops of PrepareContextCallArguments. */
  method PrepareArguments(factArgs: seq<Value>, dynamic: bool, params: seq<ContextParam>, cells: seq<Value>)
    returns (r: Result<seq<PreparedArg>, Exc>)
    ensures r == PreparedArguments(factArgs, dynamic, params, cells)
  {
    var argCount := |factArgs|;
    if dynamic {
      var argValues := seq(argCount, _ => NullArg);
      for i := 0 to argCount
        invariant |argValues| == argCount
        invariant forall k :: 0 <= k < i ==> argValues[k] == (if factArgs[k].Skipped? then NullArg else Pass(factArgs[k]))
        invariant forall k :: i <= k < argCount ==> argValues[k] == NullArg
      {
        if !factArgs[i].Skipped? {
          argValues := argValues[i := Pass(factArgs[i])];
        }
      }
      assert argValues == seq(|factArgs|, i requires 0 <= i < |factArgs| =>
                            if factArgs[i].Skipped? then NullArg else Pass(factArgs[i]));
      return Ok(argValues);
    }
    if argCount > |params| {
      return Err(TooManyArgumentsPassed);
    }
    var argValues := seq(|params|, _ => NullArg);
    var i := 0;
    while i < argCount
      invariant 0 <= i <= argCount && |argValues| == |params|
      invariant forall k :: 0 <= k < i ==> argValues[k] == FixedSlot(factArgs[k], params[k], cells)
      invariant forall k :: i <= k < |params| ==> argValues[k] == NullArg
      invariant forall k :: 0 <= k < i ==> !(factArgs[k].Skipped? && !params[k].hasDefault)
    {
      var argValue := factArgs[i];
      if !argValue.Skipped? {
        if params[i].isByRef {
          argValues := argValues[i := if argValue.Ref? then Pass(argValue) else NewVariable(argValue)];
        } else {
          argValues := argValues[i := Pass(RawValue(argValue, cells))];
        }
      } else if !params[i].hasDefault {
        assert MissesArgument(factArgs, params);
        return Err(MissedArgument);
      }
      i := i + 1;
    }
    while i < |params|
      invariant argCount <= i <= |params|
      invariant forall k :: argCount <= k < i ==> params[k].hasDefault
    {
      if !params[i].hasDefault {
        assert !MissesArgument(factArgs, params);
        assert LacksTrailing(argCount, params);
        return Err(TooFewArgumentsPassed);
      }
      i := i + 1;
    }
    assert !MissesArgument(factArgs, params) && !LacksTrailing(argCount, params);
    r := Ok(argValues);
    assert argValues == seq(|params|, i requires 0 <= i < |params| =>
                 if i < |factArgs| then FixedSlot(factArgs[i], params[i], cells) else NullArg);
  }

  /** The checks of a fixed-signature call, each in both directions, and the slots of a call
      that passes them: a by-reference parameter never receives a bare value. */
  lemma PreparationRules(factArgs: seq<Value>, params: seq<ContextParam>, cells: seq<Value>)
    ensures var r := PreparedArguments(factArgs, false, params, cells);
      (r == Err(TooManyArgumentsPassed) <==> |factArgs| > |params|)
      && (r == Err(MissedArgument) <==> |factArgs| <= |params| && MissesArgument(factArgs, params))
      && (r == Err(TooFewArgumentsPassed) <==>
            |factArgs| <= |params| && !MissesArgument(factArgs, params) && LacksTrailing(|factArgs|, params))
      && (r.Ok? ==> (|r.value| == |params|
            && (forall i :: 0 <= i < |params| && r.value[i].NullArg? ==> params[i].hasDefault)
            && (forall i :: 0 <= i < |params| && params[i].isByRef && r.value[i].Pass? ==> r.value[i].value.Ref?)))
  {
  }

  /** Dynamic signatures accept any argument list, one slot per argument. */
  lemma DynamicAcceptsAll(factArgs: seq<Value>, params: seq<ContextParam>, cells: seq<Value>)
    ensures var r := PreparedArguments(factArgs, true, params, cells);
      r.Ok? && |r.value| == |factArgs|
      && forall i :: 0 <= i < |factArgs| ==> (r.value[i].NullArg? <==> factArgs[i].Skipped?)
  {
  }
}

/**
 * The stack machine (ScriptEngine/Machine/MachineInstance.cs): an operand
 * stack, a call stack of execution frames, a stack of exception-handler
 * records and the heap of script variables, changed in place by one handler
 * per operation code; the dispatch loop, exception unwinding, the reentrant
 * entry of a script method, frame binding and the argument handling of
 * calls.
 *
 * The values' own operations (arithmetic, comparison, conversions) are the
 * machine's Runtime parameter. All frames run one module's code.
 */
module Machine {
  import opened Wrappers
  import opened Builtins
  import opened Values
  import opened MachineState
  import opened FrameBinding
  import opened CallArguments

  /** What SetExecutionFrame needs of a script method. */
  datatype MethodInfo = MethodInfo(name: Text, entryPoint: int, params: seq<ParamDef>, localCount: nat, isFunction: bool)

  /** The result of one command: go on, an exception, an operation code this model has no
      handler for, or a built-in that would loop for ever. */
  datatype StepOutcome = Continue | Raised(exc: Exc) | NotModelled(code: nat) | Hangs

  /** How running code ended. */
  datatype RunOutcome = Completed | Thrown(exc: Exc) | Unsupported(code: nat) | Diverged | OutOfFuel | CallStackBroken

  function Advanced(f: Frame): Frame
  {
    f.(ip := f.ip + 1)
  }

  /** Every variable reference among the values names an existing cell. */
  predicate RefsOk(vs: seq<Value>, cellCount: nat)
  {
    forall i :: 0 <= i < |vs| && vs[i].Ref? ==> vs[i].cell < cellCount
  }

  /** None of the values is a variable reference. */
  predicate NoRefs(vs: seq<Value>)
  {
    forall i :: 0 <= i < |vs| ==> !vs[i].Ref?
  }

  /** The values' operations give values, never variables. */
  ghost predicate RuntimeOk(rt: Runtime)
  {
    (forall op, a, b :: rt.arithmetic(op, a, b).Ok? ==> !rt.arithmetic(op, a, b).value.Ref?)
    && (forall a :: rt.negate(a).Ok? ==> !rt.negate(a).value.Ref?)
  }

  /** Parameter defaults are values, never variables. */
  predicate DefaultsOk(params: seq<ParamDef>)
  {
    forall i :: 0 <= i < |params| ==> !params[i].defaultValue.Ref?
  }

  /** The operation codes of each group of handlers. */
  predicate StackOp(op: OpCode)
  {
    op.Nop? || op.PushConst? || op.PushInt? || op.PushBool? || op.PushUndef? || op.PushNull? || op.PushLoc?
    || op.LoadLoc? || op.ArgNum? || op.PushDefaultArg? || op.MakeRawValue? || op.MakeBool? || op.PushTmp?
    || op.PopTmp? || op.LineNum?
  }

  predicate ValueOp(op: OpCode)
  {
    op.Add? || op.Sub? || op.Mul? || op.Div? || op.Mod? || op.Neg? || op.Equals? || op.NotEqual? || op.Less?
    || op.Greater? || op.LessOrEqual? || op.GreaterOrEqual? || op.Not? || op.Inc?
  }

  predicate FlowOp(op: OpCode)
  {
    op.And? || op.Or? || op.Jmp? || op.JmpFalse? || op.Return? || op.JmpCounter? || op.BeginTry? || op.EndTry?
    || op.RaiseException? || op.ExitTry?
  }

  predicate CallOp(op: OpCode)
  {
    op.CallFunc? || op.CallProc?
  }

  predicate BuiltinOp(op: OpCode)
  {
    op.Left? || op.Right? || op.Mid? || op.StrPos? || op.ChrCode? || op.StrLineCount? || op.StrEntryCount?
  }

  /** The outcome of a comparison operation from the sign of CompareTo. */
  function Ordered(op: OpCode, c: int): bool
  {
    match op
    case Less => c < 0
    case Greater => c > 0
    case LessOrEqual => c <= 0
    case GreaterOrEqual => c >= 0
    case _ => false
  }

  /** An argument array as SetExecutionFrame receives it: no slot is null. */
  function Wrapped(args: seq<Value>): (r: seq<Option<Value>>)
    ensures |r| == |args| && forall i :: 0 <= i < |args| ==> r[i] == Some(args[i])
  {
    seq(|args|, i requires 0 <= i < |args| => Some(args[i]))
  }

  /** The parameter defaults of every method are values, never variables. */
  predicate MethodsOk(methods: seq<MethodInfo>)
  {
    forall m :: 0 <= m < |methods| ==> DefaultsOk(methods[m].params)
  }

  /** PopArguments on the operand stack `ops`: the number on top, then that many values, in the
      order they were pushed; and what is left of the stack, on an error too. A negative count
      is a negative array size; too few values run the stack empty. */
  function PoppedArguments(ops: seq<Value>, cells: seq<Value>, asNumber: Value -> Result<int, Exc>)
    : (Result<seq<Value>, Exc>, seq<Value>)
  {
    var n := |ops|;
    if n == 0 then (Err(External(EmptyStack)), ops)
    else
      var count := asNumber(RawValue(ops[n - 1], cells));
      if count.Err? then (Err(count.error), ops[..n - 1])
      else if count.value < 0 then (Err(External(NegativeSize)), ops[..n - 1])
      else if count.value > n - 1 then (Err(External(EmptyStack)), [])
      else (Ok(ops[n - 1 - count.value..n - 1]), ops[..n - 1 - count.value])
  }

  /** The arguments pushed before their count (ArgNum) come back in push order, and the stack
      below them is left as it was. */
  lemma PushedArgumentsPop(below: seq<Value>, args: seq<Value>, count: Value, cells: seq<Value>,
                           asNumber: Value -> Result<int, Exc>)
    requires asNumber(RawValue(count, cells)) == Ok(|args|)
    ensures PoppedArguments(below + args + [count], cells, asNumber) == (Ok(args), below)
  {
    var ops := below + args + [count];
    assert ops[|ops| - 1 - |args|..|ops| - 1] == args;
    assert ops[..|ops| - 1 - |args|] == below;
  }

  /** A successful PopArguments splits the stack into what stays, the arguments and the count. */
  lemma PoppedArgumentsSplit(ops: seq<Value>, cells: seq<Value>, asNumber: Value -> Result<int, Exc>)
    requires PoppedArguments(ops, cells, asNumber).0.Ok?
    ensures var (args, rest) := PoppedArguments(ops, cells, asNumber);
      ops == rest + args.value + [ops[|ops| - 1]] && asNumber(RawValue(ops[|ops| - 1], cells)) == Ok(|args.value|)
  {
    var n := |ops|;
    var c := asNumber(RawValue(ops[n - 1], cells)).value;
    assert ops == ops[..n - 1 - c] + ops[n - 1 - c..n - 1] + [ops[n - 1]];
  }

  /** What one handler may do to the call stack: change the top frame in place, keeping its
      identity, and perhaps push an ordinary (not reentrant) frame on it; or pop a top frame
      that is not a reentrant entry. */
  predicate CallStackStep(before: seq<Frame>, after: seq<Frame>)
  {
    (|before| > 0 && |before| <= |after| <= |before| + 1 && after[..|before| - 1] == before[..|before| - 1]
      && SameShape(after[|before| - 1], before[|before| - 1])
      && (|after| > |before| ==> !after[|before|].isReentrant))
    || (|before| > 1 && !before[|before| - 1].isReentrant && after == before[..|before| - 1])
  }

  /** The caller's frames are below, untouched, the reentrant entry `entry` sits on them, and
      every frame above the entry is an ordinary call. */
  predicate EntryKept(frames: seq<Frame>, below: seq<Frame>, entry: FrameId)
  {
    |frames| > |below| && frames[..|below|] == below
    && frames[|below|].id == entry && frames[|below|].isReentrant
    && forall i :: |below| < i < |frames| ==> !frames[i].isReentrant
  }

  lemma TopUpdateIsStep(frames: seq<Frame>, f: Frame)
    requires |frames| > 0 && SameShape(f, frames[|frames| - 1])
    ensures CallStackStep(frames, frames[|frames| - 1 := f])
  {
    assert frames[|frames| - 1 := f][..|frames| - 1] == frames[..|frames| - 1];
  }

  /** No handler reaches below a reentrant entry: whatever a single command does to the call
      stack, the caller's frames and the entry stay, and no other reentrant frame appears. */
  lemma StepKeepsEntry(before: seq<Frame>, after: seq<Frame>, below: seq<Frame>, entry: FrameId)
    requires EntryKept(before, below, entry) && CallStackStep(before, after)
    ensures EntryKept(after, below, entry)
  {
    var n := |before|;
    if |before| <= |after| && after[..n - 1] == before[..n - 1] && SameShape(after[n - 1], before[n - 1]) {
      forall i | 0 <= i < n - 1
        ensures after[i] == before[i]
      {
        assert after[i] == after[..n - 1][i];
        assert before[i] == before[..n - 1][i];
      }
      assert after[..|below|] == before[..|below|];
    } else {
      assert n - 1 > |below|;
      assert after[..|below|] == before[..n - 1][..|below|];
    }
  }

  /** A caught exception leaves the caller's frames and the entry in place: the entry is
      reentrant, so the search for the handler's frame stops at it at the latest. */
  lemma CaughtKeepsEntry(s: Stacks, exc: Exc, below: seq<Frame>, entry: FrameId)
    requires EntryKept(s.frames, below, entry) && |s.handlers| > 0
    requires Unwind(s, exc).0 == Caught
    ensures EntryKept(Unwind(s, exc).1.frames, below, entry)
  {
    CaughtState(s, exc);
    var r := Unwind(s, exc).1.frames;
    var n := |r|;
    assert n > |below|;
    forall i | 0 <= i < n - 1
      ensures r[i] == s.frames[i]
    {
      assert r[i] == r[..n - 1][i];
      assert s.frames[i] == s.frames[..n - 1][i];
    }
    assert r[..|below|] == s.frames[..|below|];
  }

  /** An exception that a handler record below the entry is waiting for pops exactly the
      frames of the reentrant call and goes on to the caller. */
  lemma RethrowLeavesCaller(s: Stacks, exc: Exc, below: seq<Frame>, entry: FrameId)
    requires EntryKept(s.frames, below, entry) && s.frames[0].isReentrant && |s.handlers| > 0
    requires Unwind(s, exc).0 != Caught
    ensures Unwind(s, exc).1.frames == below
  {
    ReentrantFrameRethrows(s, exc);
  }

  class Machine {
    /** `_operationStack`, top last. */
    var operands: seq<Value>
    /** `_callStack`, the current frame last. */
    var frames: seq<Frame>
    /** `_exceptionsStack`, top last. */
    var handlers: seq<ExceptionJumpInfo>
    /** The script variables; a frame's locals and a Ref value name cells. */
    var cells: seq<Value>
    /** The identity the next frame gets. */
    var nextFrameId: FrameId
    const code: seq<Command>
    const constants: seq<Value>
    /** The script methods a CallFunc or CallProc argument names. */
    const methods: seq<MethodInfo>
    const rt: Runtime

    /** The call stack is well formed, every reference names a cell, and no cell, constant or
        operation result is itself a reference. */
    ghost predicate Valid()
      reads this
    {
      FramesOk(frames, nextFrameId, |cells|)
      && RefsOk(operands, |cells|)
      && (forall i :: 0 <= i < |frames| ==> RefsOk(frames[i].localFrameStack, |cells|))
      && NoRefs(cells) && NoRefs(constants) && RuntimeOk(rt) && MethodsOk(methods)
    }

    /** A machine after Reset, for one module's code, constants and methods. */
    constructor (code: seq<Command>, constants: seq<Value>, methods: seq<MethodInfo>, rt: Runtime)
      requires NoRefs(constants) && RuntimeOk(rt) && MethodsOk(methods)
      ensures Valid() && operands == [] && frames == [] && handlers == [] && cells == [] && nextFrameId == 0
      ensures this.code == code && this.constants == constants && this.methods == methods && this.rt == rt
    {
      this.code := code;
      this.constants := constants;
      this.methods := methods;
      this.rt := rt;
      operands := [];
      frames := [];
      handlers := [];
      cells := [];
      nextFrameId := 0;
    }

    /** `_currentFrame`. */
    function Top(): Frame
      reads this
      requires |frames| > 0
    {
      frames[|frames| - 1]
    }

    /** The value of a variable, the value itself otherwise. */
    function Raw(v: Value): Value
      reads this
    {
      RawValue(v, cells)
    }

    /** Only the top frame changed (to f) and perhaps the handler records. */
    twostate predicate Moved(f: Frame)
      reads this
    {
      |old(frames)| > 0 && frames == old(frames)[|old(frames)| - 1 := f]
      && cells == old(cells) && nextFrameId == old(nextFrameId)
    }

    /** Only the top frame changed, to f. */
    twostate predicate TopBecomes(f: Frame)
      reads this
    {
      Moved(f) && handlers == old(handlers)
    }

    /** Frames, records and variables are as they were. */
    twostate predicate FramesKept()
      reads this
    {
      frames == old(frames) && handlers == old(handlers) && cells == old(cells) && nextFrameId == old(nextFrameId)
    }

    // ---------------------------------------------------------------- small steps

    method SetTop(f: Frame)
      requires Valid() && |frames| > 0 && SameShape(f, Top()) && RefsOk(f.localFrameStack, |cells|)
      modifies this
      ensures Valid() && TopBecomes(f) && operands == old(operands)
      ensures CallStackStep(old(frames), frames)
    {
      TopReplacedOk(frames, f, nextFrameId, |cells|);
      TopUpdateIsStep(frames, f);
      frames := frames[|frames| - 1 := f];
    }

    /** NextInstruction. */
    method NextInstruction()
      requires Valid() && |frames| > 0
      modifies this
      ensures Valid() && TopBecomes(Advanced(old(Top()))) && operands == old(operands)
      ensures CallStackStep(old(frames), frames)
    {
      SetTop(Advanced(Top()));
    }

    method Push(v: Value)
      requires Valid() && !(v.Ref? && v.cell >= |cells|)
      modifies this
      ensures Valid() && FramesKept() && operands == old(operands) + [v]
    {
      operands := operands + [v];
    }

    /** Stack.Pop: an empty stack throws. */
    method Pop() returns (r: Result<Value, Exc>)
      requires Valid()
      modifies this
      ensures Valid() && FramesKept()
      ensures |old(operands)| == 0 ==> r == Err(External(EmptyStack)) && operands == old(operands)
      ensures |old(operands)| > 0 ==>
        r == Ok(old(operands)[|old(operands)| - 1]) && operands == old(operands)[..|old(operands)| - 1]
      ensures r.Ok? ==> !(r.value.Ref? && r.value.cell >= |cells|)
    {
      if |operands| == 0 {
        return Err(External(EmptyStack));
      }
      r := Ok(operands[|operands| - 1]);
      operands := operands[..|operands| - 1];
    }

    /** PopRawValue. */
    method PopRawValue() returns (r: Result<Value, Exc>)
      requires Valid()
      modifies this
      ensures Valid() && FramesKept()
      ensures |old(operands)| == 0 ==> r == Err(External(EmptyStack)) && operands == old(operands)
      ensures |old(operands)| > 0 ==>
        r == Ok(old(Raw(operands[|operands| - 1]))) && operands == old(operands)[..|old(operands)| - 1]
      ensures r.Ok? ==> !r.value.Ref?
    {
      var v := Pop();
      if v.Err? {
        return v;
      }
      r := Ok(Raw(v.value));
    }

    /** The two operands of a binary operation, right one popped first, as raw values. */
    method PopOperands() returns (r: Result<(Value, Value), Exc>)
      requires Valid()
      modifies this
      ensures Valid() && FramesKept()
      ensures var n := |old(operands)|;
        if n < 2 then r == Err(External(EmptyStack)) && operands == []
        else (r == Ok((RawValue(old(operands)[n - 2], cells), RawValue(old(operands)[n - 1], cells)))
          && operands == old(operands)[..n - 2])
    {
      var op2 := PopRawValue();
      if op2.Err? {
        return Err(op2.error);
      }
      var op1 := PopRawValue();
      if op1.Err? {
        return Err(op1.error);
      }
      r := Ok((op1.value, op2.value));
    }

    /** Pop().AsNumber(). */
    method PopNumber() returns (r: Result<int, Exc>)
      requires Valid()
      modifies this
      ensures Valid() && FramesKept()
      ensures |old(operands)| == 0 ==> r == Err(External(EmptyStack)) && operands == old(operands)
      ensures |old(operands)| > 0 ==>
        r == rt.asNumber(old(Raw(operands[|operands| - 1]))) && operands == old(operands)[..|old(operands)| - 1]
    {
      var v := PopRawValue();
      if v.Err? {
        return Err(v.error);
      }
      r := rt.asNumber(v.value);
    }

    /** (int)Pop().AsNumber(). */
    method PopInt() returns (r: Result<int, Exc>)
      requires Valid()
      modifies this
      ensures Valid() && FramesKept()
      ensures |old(operands)| == 0 ==> r == Err(External(EmptyStack)) && operands == old(operands)
      ensures |old(operands)| > 0 ==>
        r == IntCast(rt.asNumber(old(Raw(operands[|operands| - 1])))) && operands == old(operands)[..|old(operands)| - 1]
    {
      var n := PopNumber();
      r := IntCast(n);
    }

    /** Pop().AsString(). */
    method PopString() returns (r: Result<Text, Exc>)
      requires Valid()
      modifies this
      ensures Valid() && FramesKept()
      ensures |old(operands)| == 0 ==> r == Err(External(EmptyStack)) && operands == old(operands)
      ensures |old(operands)| > 0 ==>
        r == Ok(rt.asString(old(Raw(operands[|operands| - 1])))) && operands == old(operands)[..|old(operands)| - 1]
    {
      var v := PopRawValue();
      if v.Err? {
        return Err(v.error);
      }
      r := Ok(rt.asString(v.value));
    }

    /** Pop().AsBoolean(). */
    method PopBoolean() returns (r: Result<bool, Exc>)
      requires Valid()
      modifies this
      ensures Valid() && FramesKept()
      ensures |old(operands)| == 0 ==> r == Err(External(EmptyStack)) && operands == old(operands)
      ensures |old(operands)| > 0 ==>
        r == rt.asBoolean(old(Raw(operands[|operands| - 1]))) && operands == old(operands)[..|old(operands)| - 1]
    {
      var v := PopRawValue();
      if v.Err? {
        return Err(v.error);
      }
      r := rt.asBoolean(v.value);
    }

    /** A handler that pushes one value and moves on: PushInt, PushBool, PushUndef, PushNull,
        ArgNum, PushDefaultArg and the built-ins after their pops. */
    method PushAndNext(v: Value)
      requires Valid() && |frames| > 0 && !v.Ref?
      modifies this
      ensures Valid() && TopBecomes(Advanced(old(Top()))) && operands == old(operands) + [v]
      ensures CallStackStep(old(frames), frames)
    {
      Push(v);
      NextInstruction();
    }

    /** PushFrame: a frame with the next fresh identity becomes current. */
    method PushFrame(f: Frame)
      requires Valid() && f.id == nextFrameId && (|frames| == 0 ==> f.isReentrant)
      requires forall k :: 0 <= k < |f.locals| ==> f.locals[k] < |cells|
      requires RefsOk(f.localFrameStack, |cells|)
      modifies this
      ensures Valid() && frames == old(frames) + [f] && nextFrameId == old(nextFrameId) + 1
      ensures operands == old(operands) && handlers == old(handlers) && cells == old(cells)
    {
      PushedOk(frames, f, nextFrameId, |cells|);
      frames := frames + [f];
      nextFrameId := nextFrameId + 1;
    }

    /** PopFrame: the current frame is dropped. The source then peeks at the new top, which
        throws on an empty stack; callers look at |frames| for that. */
    method PopFrame()
      requires Valid() && |frames| > 0
      modifies this
      ensures Valid() && frames == old(frames)[..|old(frames)| - 1]
      ensures operands == old(operands) && handlers == old(handlers) && cells == old(cells)
      ensures nextFrameId == old(nextFrameId)
    {
      PrefixOk(frames, |frames| - 1, nextFrameId, |cells|);
      frames := frames[..|frames| - 1];
    }

    /** The operand stack is cut back to `size` values, or left when it is shallower. */
    method CutOperands(size: nat)
      requires Valid()
      modifies this
      ensures Valid() && FramesKept()
      ensures operands == old(operands)[..if |old(operands)| < size then |old(operands)| else size]
    {
      while |operands| > size
        invariant |operands| <= |old(operands)| && operands == old(operands)[..|operands|]
        invariant |operands| >= (if |old(operands)| < size then |old(operands)| else size)
        invariant Valid() && FramesKept()
        decreases |operands|
      {
        operands := operands[..|operands| - 1];
      }
    }

    // ---------------------------------------------------------------- pushes and locals

    /** PushConst: the constant table is indexed by the argument. */
    method OpPushConst(arg: int) returns (e: Option<Exc>)
      requires Valid() && |frames| > 0
      modifies this
      ensures Valid() && CallStackStep(old(frames), frames)
      ensures e.Some? <==> !(0 <= arg < |constants|)
      ensures e.Some? ==> e == Some(External(IndexOutOfRange)) && FramesKept() && operands == old(operands)
      ensures e.None? ==> TopBecomes(Advanced(old(Top()))) && operands == old(operands) + [constants[arg]]
    {
      if !(0 <= arg < |constants|) {
        return Some(External(IndexOutOfRange));
      }
      PushAndNext(constants[arg]);
      e := None;
    }

    /** PushLoc: the local variable itself, by reference. */
    method OpPushLoc(arg: int) returns (e: Option<Exc>)
      requires Valid() && |frames| > 0
      modifies this
      ensures Valid() && CallStackStep(old(frames), frames)
      ensures e.Some? <==> !(0 <= arg < |old(Top()).locals|)
      ensures e.Some? ==> e == Some(External(IndexOutOfRange)) && FramesKept() && operands == old(operands)
      ensures e.None? ==> (TopBecomes(Advanced(old(Top())))
        && operands == old(operands) + [Ref(old(Top()).locals[arg])])
    {
      if !(0 <= arg < |Top().locals|) {
        return Some(External(IndexOutOfRange));
      }
      assert Top().locals[arg] < |cells| by {
        assert frames[|frames| - 1].locals[arg] < |cells|;
      }
      Push(Ref(Top().locals[arg]));
      NextInstruction();
      e := None;
    }

    /** LoadLoc: the local is found before the value is popped, and it gets the raw value. */
    method OpLoadLoc(arg: int) returns (e: Option<Exc>)
      requires Valid() && |frames| > 0
      modifies this
      ensures Valid() && CallStackStep(old(frames), frames)
      ensures e.Some? <==> !(0 <= arg < |old(Top()).locals|) || |old(operands)| == 0
      ensures !(0 <= arg < |old(Top()).locals|) ==>
        e == Some(External(IndexOutOfRange)) && FramesKept() && operands == old(operands)
      ensures 0 <= arg < |old(Top()).locals| && |old(operands)| == 0 ==>
        e == Some(External(EmptyStack)) && FramesKept() && operands == old(operands)
      ensures e.None? ==> var n := |old(operands)|;
        operands == old(operands)[..n - 1]
        && cells == old(cells)[old(Top()).locals[arg] := old(Raw(operands[n - 1]))]
        && frames == old(frames)[|old(frames)| - 1 := Advanced(old(Top()))]
        && handlers == old(handlers) && nextFrameId == old(nextFrameId)
    {
      if !(0 <= arg < |Top().locals|) {
        return Some(External(IndexOutOfRange));
      }
      var cell := Top().locals[arg];
      assert cell < |cells| by {
        assert frames[|frames| - 1].locals[arg] < |cells|;
      }
      var v := PopRawValue();
      if v.Err? {
        return Some(v.error);
      }
      cells := cells[cell := v.value];
      NextInstruction();
      e := None;
    }

    // ---------------------------------------------------------------- operations on values

    /** Add, Sub, Mul, Div, Mod: both operands are popped, right first, and the result of the
        values' operation on their raw values is pushed. */
    method OpArithmetic(op: OpCode) returns (e: Option<Exc>)
      requires Valid() && |frames| > 0
      modifies this
      ensures Valid() && CallStackStep(old(frames), frames)
      ensures var n := |old(operands)|;
        if n < 2 then e == Some(External(EmptyStack)) && operands == [] && FramesKept()
        else
          var r := rt.arithmetic(op, RawValue(old(operands)[n - 2], old(cells)), RawValue(old(operands)[n - 1], old(cells)));
          (r.Err? ==> e == Some(r.error) && operands == old(operands)[..n - 2] && FramesKept())
          && (r.Ok? ==> e.None? && operands == old(operands)[..n - 2] + [r.value] && TopBecomes(Advanced(old(Top()))))
    {
      var ops := PopOperands();
      if ops.Err? {
        return Some(ops.error);
      }
      var r := rt.arithmetic(op, ops.value.0, ops.value.1);
      if r.Err? {
        return Some(r.error);
      }
      PushAndNext(r.value);
      e := None;
    }

    /** Neg. */
    method OpNeg() returns (e: Option<Exc>)
      requires Valid() && |frames| > 0
      modifies this
      ensures Valid() && CallStackStep(old(frames), frames)
      ensures var n := |old(operands)|;
        if n == 0 then e == Some(External(EmptyStack)) && operands == [] && FramesKept()
        else
          var r := rt.negate(RawValue(old(operands)[n - 1], old(cells)));
          (r.Err? ==> e == Some(r.error) && operands == old(operands)[..n - 1] && FramesKept())
          && (r.Ok? ==> e.None? && operands == old(operands)[..n - 1] + [r.value] && TopBecomes(Advanced(old(Top()))))
    {
      var v := PopRawValue();
      if v.Err? {
        return Some(v.error);
      }
      var r := rt.negate(v.value);
      if r.Err? {
        return Some(r.error);
      }
      PushAndNext(r.value);
      e := None;
    }

    /** Equals and NotEqual: the values' equality of the raw operands, or its negation. */
    method OpEquality(negated: bool) returns (e: Option<Exc>)
      requires Valid() && |frames| > 0
      modifies this
      ensures Valid() && CallStackStep(old(frames), frames)
      ensures var n := |old(operands)|;
        if n < 2 then e == Some(External(EmptyStack)) && operands == [] && FramesKept()
        else
          var eq := rt.equals(RawValue(old(operands)[n - 2], old(cells)), RawValue(old(operands)[n - 1], old(cells)));
          e.None? && operands == old(operands)[..n - 2] + [Boolean(eq != negated)]
          && TopBecomes(Advanced(old(Top())))
    {
      var ops := PopOperands();
      if ops.Err? {
        return Some(ops.error);
      }
      var eq := rt.equals(ops.value.0, ops.value.1);
      PushAndNext(Boolean(eq != negated));
      e := None;
    }

    /** Less, Greater, LessOrEqual, GreaterOrEqual: the sign of CompareTo on the raw operands. */
    method OpComparison(op: OpCode) returns (e: Option<Exc>)
      requires Valid() && |frames| > 0
      requires op.Less? || op.Greater? || op.LessOrEqual? || op.GreaterOrEqual?
      modifies this
      ensures Valid() && CallStackStep(old(frames), frames)
      ensures var n := |old(operands)|;
        if n < 2 then e == Some(External(EmptyStack)) && operands == [] && FramesKept()
        else
          var c := rt.compare(RawValue(old(operands)[n - 2], old(cells)), RawValue(old(operands)[n - 1], old(cells)));
          (c.Err? ==> e == Some(c.error) && operands == old(operands)[..n - 2] && FramesKept())
          && (c.Ok? ==> (e.None? && operands == old(operands)[..n - 2] + [Boolean(Ordered(op, c.value))]
                && TopBecomes(Advanced(old(Top())))))
    {
      var ops := PopOperands();
      if ops.Err? {
        return Some(ops.error);
      }
      var c := rt.compare(ops.value.0, ops.value.1);
      if c.Err? {
        return Some(c.error);
      }
      PushAndNext(Boolean(Ordered(op, c.value)));
      e := None;
    }

    /** Not. */
    method OpNot() returns (e: Option<Exc>)
      requires Valid() && |frames| > 0
      modifies this
      ensures Valid() && CallStackStep(old(frames), frames)
      ensures var n := |old(operands)|;
        if n == 0 then e == Some(External(EmptyStack)) && operands == [] && FramesKept()
        else
          var b := rt.asBoolean(RawValue(old(operands)[n - 1], old(cells)));
          (b.Err? ==> e == Some(b.error) && operands == old(operands)[..n - 1] && FramesKept())
          && (b.Ok? ==> (e.None? && operands == old(operands)[..n - 1] + [Boolean(!b.value)]
                && TopBecomes(Advanced(old(Top())))))
    {
      var b := PopBoolean();
      if b.Err? {
        return Some(b.error);
      }
      PushAndNext(Boolean(!b.value));
      e := None;
    }

    /** MakeRawValue: the top operand is replaced by its raw value. */
    method OpMakeRawValue() returns (e: Option<Exc>)
      requires Valid() && |frames| > 0
      modifies this
      ensures Valid() && CallStackStep(old(frames), frames)
      ensures var n := |old(operands)|;
        if n == 0 then e == Some(External(EmptyStack)) && operands == [] && FramesKept()
        else (e.None? && operands == old(operands)[..n - 1] + [RawValue(old(operands)[n - 1], old(cells))]
          && TopBecomes(Advanced(old(Top()))))
    {
      var v := PopRawValue();
      if v.Err? {
        return Some(v.error);
      }
      PushAndNext(v.value);
      e := None;
    }

    /** MakeBool: the top operand is replaced by its boolean value. */
    method OpMakeBool() returns (e: Option<Exc>)
      requires Valid() && |frames| > 0
      modifies this
      ensures Valid() && CallStackStep(old(frames), frames)
      ensures var n := |old(operands)|;
        if n == 0 then e == Some(External(EmptyStack)) && operands == [] && FramesKept()
        else
          var b := rt.asBoolean(RawValue(old(operands)[n - 1], old(cells)));
          (b.Err? ==> e == Some(b.error) && operands == old(operands)[..n - 1] && FramesKept())
          && (b.Ok? ==> (e.None? && operands == old(operands)[..n - 1] + [Boolean(b.value)]
                && TopBecomes(Advanced(old(Top())))))
    {
      var b := PopBoolean();
      if b.Err? {
        return Some(b.error);
      }
      PushAndNext(Boolean(b.value));
      e := None;
    }

    /** Inc: the top operand as a number, plus one. */
    method OpInc() returns (e: Option<Exc>)
      requires Valid() && |frames| > 0
      modifies this
      ensures Valid() && CallStackStep(old(frames), frames)
      ensures var n := |old(operands)|;
        if n == 0 then e == Some(External(EmptyStack)) && operands == [] && FramesKept()
        else
          var x := rt.asNumber(RawValue(old(operands)[n - 1], old(cells)));
          (x.Err? ==> e == Some(x.error) && operands == old(operands)[..n - 1] && FramesKept())
          && (x.Ok? ==> (e.None? && operands == old(operands)[..n - 1] + [Number(x.value + 1)]
                && TopBecomes(Advanced(old(Top())))))
    {
      var x := PopNumber();
      if x.Err? {
        return Some(x.error);
      }
      PushAndNext(Number(x.value + 1));
      e := None;
    }

    // ---------------------------------------------------------------- jumps

    /** Jmp. */
    method OpJmp(arg: int)
      requires Valid() && |frames| > 0
      modifies this
      ensures Valid() && CallStackStep(old(frames), frames)
      ensures TopBecomes(old(Top()).(ip := arg)) && operands == old(operands)
    {
      SetTop(Top().(ip := arg));
    }

    /** And (jumpOn false) and Or (jumpOn true): the top operand is looked at without popping;
        when it is jumpOn the machine jumps and leaves it, otherwise it is popped and the next
        command follows. */
    method OpShortCircuit(jumpOn: bool, arg: int) returns (e: Option<Exc>)
      requires Valid() && |frames| > 0
      modifies this
      ensures Valid() && CallStackStep(old(frames), frames)
      ensures var n := |old(operands)|;
        if n == 0 then e == Some(External(EmptyStack)) && operands == old(operands) && FramesKept()
        else
          var b := rt.asBoolean(RawValue(old(operands)[n - 1], old(cells)));
          (b.Err? ==> e == Some(b.error) && operands == old(operands) && FramesKept())
          && (b.Ok? && b.value == jumpOn ==> (e.None? && operands == old(operands)
                && TopBecomes(old(Top()).(ip := arg))))
          && (b.Ok? && b.value != jumpOn ==> (e.None? && operands == old(operands)[..n - 1]
                && TopBecomes(Advanced(old(Top())))))
    {
      if |operands| == 0 {
        return Some(External(EmptyStack));
      }
      var b := rt.asBoolean(Raw(operands[|operands| - 1]));
      if b.Err? {
        return Some(b.error);
      }
      if b.value == jumpOn {
        OpJmp(arg);
      } else {
        var _ := Pop();
        NextInstruction();
      }
      e := None;
    }

    /** JmpFalse: the condition is always popped; the machine jumps when it is false. */
    method OpJmpFalse(arg: int) returns (e: Option<Exc>)
      requires Valid() && |frames| > 0
      modifies this
      ensures Valid() && CallStackStep(old(frames), frames)
      ensures var n := |old(operands)|;
        if n == 0 then e == Some(External(EmptyStack)) && operands == [] && FramesKept()
        else
          var b := rt.asBoolean(RawValue(old(operands)[n - 1], old(cells)));
          operands == old(operands)[..n - 1]
          && (b.Err? ==> e == Some(b.error) && FramesKept())
          && (b.Ok? ==> e.None? && TopBecomes(if b.value then Advanced(old(Top())) else old(Top()).(ip := arg)))
    {
      var b := PopBoolean();
      if b.Err? {
        return Some(b.error);
      }
      if !b.value {
        OpJmp(arg);
      } else {
        NextInstruction();
      }
      e := None;
    }

    /** JmpCounter: the counter is popped and compared with the limit on top of the frame's
        local stack, which stays; while counter <= limit the next command follows. */
    method OpJmpCounter(arg: int) returns (e: Option<Exc>)
      requires Valid() && |frames| > 0
      modifies this
      ensures Valid() && CallStackStep(old(frames), frames)
      ensures var n := |old(operands)|;
        var tmp := old(Top()).localFrameStack;
        if n == 0 then e == Some(External(EmptyStack)) && operands == [] && FramesKept()
        else if |tmp| == 0 then e == Some(External(EmptyStack)) && operands == old(operands)[..n - 1] && FramesKept()
        else
          var c := rt.compare(RawValue(old(operands)[n - 1], old(cells)), RawValue(tmp[|tmp| - 1], old(cells)));
          operands == old(operands)[..n - 1]
          && (c.Err? ==> e == Some(c.error) && FramesKept())
          && (c.Ok? ==> e.None? && TopBecomes(if c.value <= 0 then Advanced(old(Top())) else old(Top()).(ip := arg)))
    {
      var counter := PopRawValue();
      if counter.Err? {
        return Some(counter.error);
      }
      var tmp := Top().localFrameStack;
      if |tmp| == 0 {
        return Some(External(EmptyStack));
      }
      var c := rt.compare(counter.value, Raw(tmp[|tmp| - 1]));
      if c.Err? {
        return Some(c.error);
      }
      if c.value <= 0 {
        NextInstruction();
      } else {
        OpJmp(arg);
      }
      e := None;
    }

    /** PushTmp: the top operand moves to the frame's local stack. */
    method OpPushTmp() returns (e: Option<Exc>)
      requires Valid() && |frames| > 0
      modifies this
      ensures Valid() && CallStackStep(old(frames), frames)
      ensures var n := |old(operands)|;
        if n == 0 then e == Some(External(EmptyStack)) && operands == [] && FramesKept()
        else (e.None? && operands == old(operands)[..n - 1]
          && TopBecomes(Advanced(old(Top())).(localFrameStack := old(Top()).localFrameStack + [old(operands)[n - 1]])))
    {
      var v := Pop();
      if v.Err? {
        return Some(v.error);
      }
      var top := Top();
      assert RefsOk(top.localFrameStack, |cells|);
      SetTop(Advanced(top).(localFrameStack := top.localFrameStack + [v.value]));
      e := None;
    }

    /** PopTmp: the top of the frame's local stack is dropped, or pushed back when arg is 0. */
    method OpPopTmp(arg: int) returns (e: Option<Exc>)
      requires Valid() && |frames| > 0
      modifies this
      ensures Valid() && CallStackStep(old(frames), frames)
      ensures var tmp := old(Top()).localFrameStack;
        if |tmp| == 0 then e == Some(External(EmptyStack)) && operands == old(operands) && FramesKept()
        else (e.None?
          && operands == old(operands) + (if arg == 0 then [tmp[|tmp| - 1]] else [])
          && TopBecomes(Advanced(old(Top())).(localFrameStack := tmp[..|tmp| - 1])))
    {
      var top := Top();
      var tmp := top.localFrameStack;
      if |tmp| == 0 {
        return Some(External(EmptyStack));
      }
      var v := tmp[|tmp| - 1];
      assert RefsOk(tmp, |cells|);
      SetTop(Advanced(top).(localFrameStack := tmp[..|tmp| - 1]));
      if arg == 0 {
        Push(v);
      }
      e := None;
    }

    /** LineNum: the frame's line number becomes the argument. */
    method OpLineNum(arg: int)
      requires Valid() && |frames| > 0
      modifies this
      ensures Valid() && CallStackStep(old(frames), frames)
      ensures TopBecomes(Advanced(old(Top())).(lineNumber := arg)) && operands == old(operands)
    {
      SetTop(Advanced(Top()).(lineNumber := arg));
    }

    // ---------------------------------------------------------------- exception handling

    /** BeginTry: a record of the handler address, the current frame and the operand-stack
        depth is pushed. */
    method OpBeginTry(arg: int)
      requires Valid() && |frames| > 0
      modifies this
      ensures Valid() && CallStackStep(old(frames), frames)
      ensures handlers == old(handlers) + [ExceptionJumpInfo(arg, old(Top()).id, |old(operands)|)]
      ensures Moved(Advanced(old(Top()))) && operands == old(operands)
    {
      handlers := handlers + [ExceptionJumpInfo(arg, Top().id, |operands|)];
      NextInstruction();
    }

    /** EndTry: the top record is popped only when it belongs to the current frame and has the
        given address; the frame's last exception is always cleared. */
    method OpEndTry(arg: int)
      requires Valid() && |frames| > 0
      modifies this
      ensures Valid() && CallStackStep(old(frames), frames)
      ensures var h := old(handlers);
        handlers == (if |h| > 0 && h[|h| - 1].handlerFrame == old(Top()).id && h[|h| - 1].handlerAddress == arg
                     then h[..|h| - 1] else h)
      ensures Moved(Advanced(old(Top())).(lastException := None)) && operands == old(operands)
    {
      if |handlers| > 0 {
        var info := handlers[|handlers| - 1];
        if info.handlerFrame == Top().id && arg == info.handlerAddress {
          handlers := handlers[..|handlers| - 1];
        }
      }
      SetTop(Advanced(Top()).(lastException := None));
    }

    /** ExitTry: exactly arg records are popped; popping more than there are throws. */
    method OpExitTry(arg: int) returns (e: Option<Exc>)
      requires Valid() && |frames| > 0
      modifies this
      ensures Valid() && CallStackStep(old(frames), frames) && operands == old(operands)
      ensures arg <= |old(handlers)| ==> (e.None? && Moved(Advanced(old(Top())))
        && handlers == old(handlers)[..|old(handlers)| - (if arg < 0 then 0 else arg)])
      ensures arg > |old(handlers)| ==> (e == Some(External(EmptyStack)) && handlers == []
        && frames == old(frames) && cells == old(cells) && nextFrameId == old(nextFrameId))
    {
      var count := arg;
      while count > 0
        invariant arg > 0 ==> (0 <= count <= arg && arg - count <= |old(handlers)|
          && handlers == old(handlers)[..|old(handlers)| - (arg - count)])
        invariant arg <= 0 ==> count == arg && handlers == old(handlers)
        invariant frames == old(frames) && cells == old(cells) && nextFrameId == old(nextFrameId) && operands == old(operands)
        decreases count
      {
        if |handlers| == 0 {
          return Some(External(EmptyStack));
        }
        handlers := handlers[..|handlers| - 1];
        count := count - 1;
      }
      NextInstruction();
      e := None;
    }

    /** RaiseException: with a negative argument the frame's last exception is thrown again, or an
        empty one when there is none; otherwise what the popped raw value raises (RaisedBy). */
    method OpRaiseException(arg: int) returns (e: Option<Exc>)
      requires Valid() && |frames| > 0
      modifies this
      ensures Valid() && FramesKept() && CallStackStep(old(frames), frames) && e.Some?
      ensures arg < 0 ==> (operands == old(operands)
        && e == Some(if old(Top()).lastException.Some? then old(Top()).lastException.value else EmptyRaise))
      ensures arg >= 0 && |old(operands)| == 0 ==> e == Some(External(EmptyStack)) && operands == old(operands)
      ensures arg >= 0 && |old(operands)| > 0 ==> var n := |old(operands)|;
        operands == old(operands)[..n - 1] && e == Some(RaisedBy(rt, RawValue(old(operands)[n - 1], old(cells))))
    {
      if arg < 0 {
        if Top().lastException.None? {
          return Some(EmptyRaise);
        }
        return Some(Top().lastException.value);
      }
      var v := PopRawValue();
      if v.Err? {
        return Some(v.error);
      }
      e := Some(RaisedBy(rt, v.value));
    }

    /** Return: the return value is dropped when the frame discards it, the frame's records on top
        of the record stack are removed, and the frame is popped; a reentrant frame instead gets
        the InstructionPointer -1, which ends the dispatch loop. */
    method OpReturn() returns (e: Option<Exc>)
      requires Valid() && |frames| > 0
      modifies this
      ensures Valid() && CallStackStep(old(frames), frames) && |frames| > 0
      ensures cells == old(cells) && nextFrameId == old(nextFrameId)
      ensures var top := old(Top()); var n := |old(operands)|;
        if top.discardReturnValue && n == 0 then
          e == Some(External(EmptyStack)) && FramesKept() && operands == old(operands)
        else (e.None?
          && operands == (if top.discardReturnValue then old(operands)[..n - 1] else old(operands))
          && handlers == DropOwned(old(handlers), top.id)
          && frames == (if top.isReentrant then old(frames)[|old(frames)| - 1 := top.(ip := -1)]
                        else old(frames)[..|old(frames)| - 1]))
    {
      var top := Top();
      if top.discardReturnValue {
        var v := Pop();
        if v.Err? {
          return Some(v.error);
        }
      }
      ghost var ops := operands;
      while |handlers| > 0 && handlers[|handlers| - 1].handlerFrame == top.id
        invariant DropOwned(handlers, top.id) == DropOwned(old(handlers), top.id)
        invariant frames == old(frames) && cells == old(cells) && nextFrameId == old(nextFrameId) && operands == ops
        decreases |handlers|
      {
        handlers := handlers[..|handlers| - 1];
      }
      if top.isReentrant {
        SetTop(top.(ip := -1));
      } else {
        assert |frames| > 1;
        PrefixOk(frames, |frames| - 1, nextFrameId, |cells|);
        frames := frames[..|frames| - 1];
      }
      e := None;
    }

    /** The frame loop of ShouldRethrowException up to the point where it stops: frames are
        popped until the current one owns the handler or is a reentrant entry, or none is left. */
    method SeekFrame(target: FrameId) returns (stop: Stop)
      requires Valid() && |frames| > 0
      modifies this
      ensures Valid() && (stop, frames) == UnwindTo(old(frames), target)
      ensures operands == old(operands) && handlers == old(handlers) && cells == old(cells)
      ensures nextFrameId == old(nextFrameId)
    {
      while Top().id != target && !Top().isReentrant
        invariant Valid() && |frames| > 0 && UnwindTo(frames, target) == UnwindTo(old(frames), target)
        invariant operands == old(operands) && handlers == old(handlers) && cells == old(cells)
        invariant nextFrameId == old(nextFrameId)
        decreases |frames|
      {
        PopFrame();
        if |frames| == 0 {
          return Exhausted;
        }
      }
      stop := if Top().id == target then AtHandler else AtReentrant;
    }

    /** ShouldRethrowException: the top record is popped and the frames are searched for its
        owner; a reentrant frame met first gets the record back and is itself popped. */
    method ShouldRethrowException(exc: Exc) returns (outcome: UnwindOutcome)
      requires Valid() && |frames| > 0
      modifies this
      ensures Valid() && cells == old(cells) && nextFrameId == old(nextFrameId)
      ensures (outcome, Stacks(operands, frames, handlers)) == Unwind(old(Stacks(operands, frames, handlers)), exc)
    {
      if |handlers| == 0 {
        return Rethrow;
      }
      ghost var s0 := Stacks(operands, frames, handlers);
      UnwindByStop(s0, exc);
      var handler := handlers[|handlers| - 1];
      handlers := handlers[..|handlers| - 1];
      var stop := SeekFrame(handler.handlerFrame);
      if stop == Exhausted {
        return StackFault;
      }
      if stop == AtReentrant {
        handlers := handlers + [handler];
        assert handlers == s0.handlers;
        PopFrame();
        if |frames| == 0 {
          return StackFault;
        }
        return Rethrow;
      }
      EnterHandler(handler, exc);
      outcome := Caught;
    }

    /** The end of ShouldRethrowException once the handler's frame is current: the frame
        resumes at the handler with the exception stored, and the operand stack is cut back. */
    method EnterHandler(handler: ExceptionJumpInfo, exc: Exc)
      requires Valid() && |frames| > 0
      modifies this
      ensures Valid() && cells == old(cells) && nextFrameId == old(nextFrameId) && handlers == old(handlers)
      ensures frames == old(frames)[|old(frames)| - 1 := old(Top()).(ip := handler.handlerAddress, lastException := Some(exc))]
      ensures operands == old(operands)[..if |old(operands)| < handler.stackSize then |old(operands)| else handler.stackSize]
    {
      var top := Top();
      assert RefsOk(top.localFrameStack, |cells|);
      SetTop(top.(ip := handler.handlerAddress, lastException := Some(exc)));
      CutOperands(handler.stackSize);
    }

    // ---------------------------------------------------------------- built-in functions

    /** Left: the length is popped, then the string. */
    method OpLeft() returns (e: Option<Exc>)
      requires Valid() && |frames| > 0
      modifies this
      ensures Valid() && CallStackStep(old(frames), frames)
      ensures var n := |old(operands)|;
        var ok := n >= 2 && IntCast(rt.asNumber(RawValue(old(operands)[n - 1], old(cells)))).Ok?;
        (ok ==> (e.None? && TopBecomes(Advanced(old(Top())))
          && operands == old(operands)[..n - 2]
             + [Str(Builtins.Left(rt.asString(RawValue(old(operands)[n - 2], old(cells))),
                         IntCast(rt.asNumber(RawValue(old(operands)[n - 1], old(cells)))).value))]))
        && (!ok ==> e.Some? && FramesKept() && |operands| <= |old(operands)| && operands == old(operands)[..|operands|])
    {
      ghost var ops := operands;
      var len := PopInt();
      if len.Err? {
        return Some(len.error);
      }
      assert operands == ops[..|ops| - 1];
      var s := PopString();
      if s.Err? {
        return Some(s.error);
      }
      assert operands == ops[..|ops| - 2];
      PushAndNext(Str(Builtins.Left(s.value, len.value)));
      e := None;
    }

    /** Right: the length is popped, then the string. */
    method OpRight() returns (e: Option<Exc>)
      requires Valid() && |frames| > 0
      modifies this
      ensures Valid() && CallStackStep(old(frames), frames)
      ensures var n := |old(operands)|;
        var ok := n >= 2 && IntCast(rt.asNumber(RawValue(old(operands)[n - 1], old(cells)))).Ok?;
        (ok ==> (e.None? && TopBecomes(Advanced(old(Top())))
          && operands == old(operands)[..n - 2]
             + [Str(Builtins.Right(rt.asString(RawValue(old(operands)[n - 2], old(cells))),
                          IntCast(rt.asNumber(RawValue(old(operands)[n - 1], old(cells)))).value))]))
        && (!ok ==> e.Some? && FramesKept() && |operands| <= |old(operands)| && operands == old(operands)[..|operands|])
    {
      ghost var ops := operands;
      var len := PopInt();
      if len.Err? {
        return Some(len.error);
      }
      assert operands == ops[..|ops| - 1];
      var s := PopString();
      if s.Err? {
        return Some(s.error);
      }
      assert operands == ops[..|ops| - 2];
      PushAndNext(Str(Builtins.Right(s.value, len.value)));
      e := None;
    }

    /** Mid with argument 2: the start is popped, then the string; the rest of the string from
        the start is taken. A Substring outside the string throws once both are popped. */
    method OpMidToEnd() returns (e: Option<Exc>)
      requires Valid() && |frames| > 0
      modifies this
      ensures Valid() && CallStackStep(old(frames), frames)
      ensures var n := |old(operands)|;
        var ops := old(operands); var heap := old(cells);
        var ok := n >= 2 && IntCast(rt.asNumber(RawValue(ops[n - 1], heap))).Ok?;
        (ok ==> (var m := Builtins.Mid(rt.asString(RawValue(ops[n - 2], heap)), IntCast(rt.asNumber(RawValue(ops[n - 1], heap))).value, None);
          (m.Some? ==> e.None? && TopBecomes(Advanced(old(Top()))) && operands == ops[..n - 2] + [Str(m.value)])
          && (m.None? ==> e == Some(External(ArgumentOutOfRange)) && FramesKept() && operands == ops[..n - 2])))
        && (!ok ==> e.Some? && FramesKept() && |operands| <= n && operands == ops[..|operands|])
    {
      ghost var ops := operands;
      var start := PopInt();
      if start.Err? {
        return Some(start.error);
      }
      assert operands == ops[..|ops| - 1];
      var s := PopString();
      if s.Err? {
        return Some(s.error);
      }
      assert operands == ops[..|ops| - 2];
      e := PushMid(Builtins.Mid(s.value, start.value, None));
    }

    /** Mid with any other argument: the length, the start and the string are popped. */
    method OpMidCount() returns (e: Option<Exc>)
      requires Valid() && |frames| > 0
      modifies this
      ensures Valid() && CallStackStep(old(frames), frames)
      ensures var n := |old(operands)|;
        var ops := old(operands); var heap := old(cells);
        var ok := n >= 3 && IntCast(rt.asNumber(RawValue(ops[n - 1], heap))).Ok? && IntCast(rt.asNumber(RawValue(ops[n - 2], heap))).Ok?;
        (ok ==> (var m := Builtins.Mid(rt.asString(RawValue(ops[n - 3], heap)), IntCast(rt.asNumber(RawValue(ops[n - 2], heap))).value,
                                       Some(IntCast(rt.asNumber(RawValue(ops[n - 1], heap))).value));
          (m.Some? ==> e.None? && TopBecomes(Advanced(old(Top()))) && operands == ops[..n - 3] + [Str(m.value)])
          && (m.None? ==> e == Some(External(ArgumentOutOfRange)) && FramesKept() && operands == ops[..n - 3])))
        && (!ok ==> e.Some? && FramesKept() && |operands| <= n && operands == ops[..|operands|])
    {
      ghost var ops := operands;
      var len := PopInt();
      if len.Err? {
        return Some(len.error);
      }
      assert operands == ops[..|ops| - 1];
      var start := PopInt();
      if start.Err? {
        return Some(start.error);
      }
      assert operands == ops[..|ops| - 2];
      var s := PopString();
      if s.Err? {
        return Some(s.error);
      }
      assert operands == ops[..|ops| - 3];
      e := PushMid(Builtins.Mid(s.value, start.value, Some(len.value)));
    }

    /** The end of Mid: its string is pushed, or Substring's ArgumentOutOfRangeException. */
    method PushMid(m: Option<Text>) returns (e: Option<Exc>)
      requires Valid() && |frames| > 0
      modifies this
      ensures Valid() && CallStackStep(old(frames), frames)
      ensures m.Some? ==> e.None? && TopBecomes(Advanced(old(Top()))) && operands == old(operands) + [Str(m.value)]
      ensures m.None? ==> e == Some(External(ArgumentOutOfRange)) && FramesKept() && operands == old(operands)
    {
      if m.None? {
        TopUpdateIsStep(frames, Top());
        assert frames[|frames| - 1 := Top()] == frames;
        return Some(External(ArgumentOutOfRange));
      }
      PushAndNext(Str(m.value));
      e := None;
    }

    /** StrPos: the needle is popped, then the haystack; the 1-based position is pushed. */
    method OpStrPos() returns (e: Option<Exc>)
      requires Valid() && |frames| > 0
      modifies this
      ensures Valid() && CallStackStep(old(frames), frames)
      ensures var n := |old(operands)|;
        (n >= 2 ==> (e.None? && TopBecomes(Advanced(old(Top())))
          && operands == old(operands)[..n - 2]
             + [Number(Builtins.StrPos(rt.asString(RawValue(old(operands)[n - 2], old(cells))),
                              rt.asString(RawValue(old(operands)[n - 1], old(cells)))))]))
        && (n < 2 ==> e == Some(External(EmptyStack)) && FramesKept() && operands == [])
    {
      ghost var ops := operands;
      var needle := PopString();
      if needle.Err? {
        return Some(needle.error);
      }
      assert operands == ops[..|ops| - 1];
      var haystack := PopString();
      if haystack.Err? {
        return Some(haystack.error);
      }
      assert operands == ops[..|ops| - 2];
      PushAndNext(Number(Builtins.StrPos(haystack.value, needle.value)));
      e := None;
    }

    /** ChrCode: with argument 2 the position and then the string are popped, with argument 1
        the string only; any other argument is a stack error before any pop. */
    method OpChrCode(arg: int) returns (e: Option<Exc>)
      requires Valid() && |frames| > 0
      modifies this
      ensures Valid() && CallStackStep(old(frames), frames)
      ensures arg != 1 && arg != 2 ==> e == Some(Builtin(WrongStackCondition)) && FramesKept() && operands == old(operands)
      ensures var n := |old(operands)|;
        var ops := old(operands); var heap := old(cells);
        (arg == 1 && n >= 1 ==> (e.None? && TopBecomes(Advanced(old(Top())))
          && operands == old(operands)[..n - 1] + [Number(Builtins.ChrCode(1, rt.asString(RawValue(ops[n - 1], heap)), 0).value)]))
        && (arg == 2 && n >= 2 && IntCast(rt.asNumber(RawValue(ops[n - 1], heap))).Ok? ==> (e.None? && TopBecomes(Advanced(old(Top())))
          && operands == old(operands)[..n - 2]
             + [Number(Builtins.ChrCode(2, rt.asString(RawValue(ops[n - 2], heap)), IntCast(rt.asNumber(RawValue(ops[n - 1], heap))).value).value)]))
        && ((arg == 1 && n == 0) || (arg == 2 && (n < 2 || IntCast(rt.asNumber(RawValue(ops[n - 1], heap))).Err?)) ==>
              e.Some? && FramesKept() && |operands| <= |old(operands)| && operands == old(operands)[..|operands|])
    {
      ghost var ops := operands;
      if arg != 1 && arg != 2 {
        return Some(Builtin(WrongStackCondition));
      }
      var position := 0;
      if arg == 2 {
        var p := PopInt();
        if p.Err? {
          return Some(p.error);
        }
        assert operands == ops[..|ops| - 1];
        position := p.value;
      }
      var s := PopString();
      if s.Err? {
        return Some(s.error);
      }
      assert operands == ops[..|ops| - arg];
      var code := Builtins.ChrCode(arg, s.value, position);
      PushAndNext(Number(code.value));
      e := None;
    }

    /** StrLineCount. */
    method OpStrLineCount() returns (e: Option<Exc>)
      requires Valid() && |frames| > 0
      modifies this
      ensures Valid() && CallStackStep(old(frames), frames)
      ensures var n := |old(operands)|;
        (n >= 1 ==> (e.None? && TopBecomes(Advanced(old(Top())))
          && operands == old(operands)[..n - 1]
             + [Number(1 + multiset(rt.asString(RawValue(old(operands)[n - 1], old(cells))))[LineFeed])]))
        && (n == 0 ==> e == Some(External(EmptyStack)) && FramesKept() && operands == old(operands))
    {
      var s := PopString();
      if s.Err? {
        return Some(s.error);
      }
      var count := Builtins.StrLineCount(s.value);
      PushAndNext(Number(count));
      e := None;
    }

    /** StrEntryCount: the needle is popped, then the string; an empty needle in a non-empty string
        makes the source's loop run for ever. */
    method OpStrEntryCount() returns (o: StepOutcome)
      requires Valid() && |frames| > 0
      modifies this
      ensures Valid() && CallStackStep(old(frames), frames)
      ensures var n := |old(operands)|;
        var what := (if n >= 1 then rt.asString(RawValue(old(operands)[n - 1], old(cells))) else []);
        var where := (if n >= 2 then rt.asString(RawValue(old(operands)[n - 2], old(cells))) else []);
        (n < 2 ==> o == Raised(External(EmptyStack)) && FramesKept() && operands == [])
        && (n >= 2 && |what| == 0 && |where| > 0 ==> o == Hangs && FramesKept() && operands == old(operands)[..n - 2])
        && (n >= 2 && (|what| > 0 || |where| == 0) ==> (o == Continue && TopBecomes(Advanced(old(Top())))
              && operands == old(operands)[..n - 2]
                 + [Number(if |what| == 0 then 1 else NonOverlappingCount(where, what))]))
    {
      ghost var ops := operands;
      var what := PopString();
      if what.Err? {
        return Raised(what.error);
      }
      assert operands == ops[..|ops| - 1];
      var where := PopString();
      if where.Err? {
        return Raised(where.error);
      }
      assert operands == ops[..|ops| - 2];
      if |what.value| == 0 && |where.value| > 0 {
        return Hangs;
      }
      var count := Builtins.StrEntryCount(where.value, what.value);
      PushAndNext(Number(count));
      o := Continue;
    }

    // ---------------------------------------------------------------- dispatch

    /** Commands on the operand stack, the locals and the frame's local stack. */
    method ExecuteStackCommand(cmd: Command) returns (e: Option<Exc>)
      requires Valid() && |frames| > 0 && StackOp(cmd.code)
      modifies this
      ensures Valid() && CallStackStep(old(frames), frames)
    {
      e := None;
      var arg := cmd.argument;
      match cmd.code {
        case Nop => NextInstruction();
        case PushConst => e := OpPushConst(arg);
        case PushInt => PushAndNext(Number(arg));
        case PushBool => PushAndNext(Boolean(arg == 1));
        case PushUndef => PushAndNext(Undefined);
        case PushNull => PushAndNext(Null);
        case PushLoc => e := OpPushLoc(arg);
        case LoadLoc => e := OpLoadLoc(arg);
        case ArgNum => PushAndNext(Number(arg));
        case PushDefaultArg => PushAndNext(Skipped);
        case MakeRawValue => e := OpMakeRawValue();
        case MakeBool => e := OpMakeBool();
        case PushTmp => e := OpPushTmp();
        case PopTmp => e := OpPopTmp(arg);
        case LineNum => OpLineNum(arg);
        case _ => assert false;
      }
    }

    /** Arithmetic, comparison and logical operations on values. */
    method ExecuteValueCommand(cmd: Command) returns (e: Option<Exc>)
      requires Valid() && |frames| > 0 && ValueOp(cmd.code)
      modifies this
      ensures Valid() && CallStackStep(old(frames), frames)
    {
      e := None;
      match cmd.code {
        case Add => e := OpArithmetic(cmd.code);
        case Sub => e := OpArithmetic(cmd.code);
        case Mul => e := OpArithmetic(cmd.code);
        case Div => e := OpArithmetic(cmd.code);
        case Mod => e := OpArithmetic(cmd.code);
        case Neg => e := OpNeg();
        case Equals => e := OpEquality(false);
        case NotEqual => e := OpEquality(true);
        case Less => e := OpComparison(cmd.code);
        case Greater => e := OpComparison(cmd.code);
        case LessOrEqual => e := OpComparison(cmd.code);
        case GreaterOrEqual => e := OpComparison(cmd.code);
        case Not => e := OpNot();
        case Inc => e := OpInc();
        case _ => assert false;
      }
    }

    /** Jumps, returns and the exception-handling commands. */
    method ExecuteFlowCommand(cmd: Command) returns (e: Option<Exc>)
      requires Valid() && |frames| > 0 && FlowOp(cmd.code)
      modifies this
      ensures Valid() && CallStackStep(old(frames), frames)
    {
      e := None;
      var arg := cmd.argument;
      match cmd.code {
        case And => e := OpShortCircuit(false, arg);
        case Or => e := OpShortCircuit(true, arg);
        case Jmp => OpJmp(arg);
        case JmpFalse => e := OpJmpFalse(arg);
        case Return => e := OpReturn();
        case JmpCounter => e := OpJmpCounter(arg);
        case BeginTry => OpBeginTry(arg);
        case EndTry => OpEndTry(arg);
        case RaiseException => e := OpRaiseException(arg);
        case ExitTry => e := OpExitTry(arg);
        case _ => assert false;
      }
    }

    /** The built-in functions the machine implements itself. */
    method ExecuteBuiltinCommand(cmd: Command) returns (o: StepOutcome)
      requires Valid() && |frames| > 0 && BuiltinOp(cmd.code)
      modifies this
      ensures Valid() && CallStackStep(old(frames), frames) && !o.NotModelled?
    {
      var e: Option<Exc> := None;
      var arg := cmd.argument;
      match cmd.code {
        case Left => e := OpLeft();
        case Right => e := OpRight();
        case Mid => if arg == 2 { e := OpMidToEnd(); } else { e := OpMidCount(); }
        case StrPos => e := OpStrPos();
        case ChrCode => e := OpChrCode(arg);
        case StrLineCount => e := OpStrLineCount();
        case StrEntryCount => o := OpStrEntryCount(); return;
        case _ => assert false;
      }
      o := if e.Some? then Raised(e.value) else Continue;
    }

    /** One command of `_commands`; an operation code without a handler here stops the run. */
    method ExecuteCommand(cmd: Command) returns (o: StepOutcome)
      requires Valid() && |frames| > 0
      modifies this
      ensures Valid() && |frames| > 0 && CallStackStep(old(frames), frames)
      ensures o.NotModelled? <==> cmd.code.Unmodelled?
      ensures o.NotModelled? ==> o.code == cmd.code.code && frames == old(frames) && operands == old(operands)
    {
      var e: Option<Exc>;
      if StackOp(cmd.code) {
        e := ExecuteStackCommand(cmd);
      } else if ValueOp(cmd.code) {
        e := ExecuteValueCommand(cmd);
      } else if FlowOp(cmd.code) {
        e := ExecuteFlowCommand(cmd);
      } else if BuiltinOp(cmd.code) {
        o := ExecuteBuiltinCommand(cmd);
        return;
      } else if CallOp(cmd.code) {
        e := OpCall(cmd.argument, cmd.code.CallFunc?);
      } else {
        TopUpdateIsStep(frames, Top());
        assert frames[|frames| - 1 := Top()] == frames;
        return NotModelled(cmd.code.code);
      }
      o := if e.Some? then Raised(e.value) else Continue;
    }

    /** MainCommandLoop: commands run while the current frame's InstructionPointer is inside the code; an
        exception ends the loop. Each command costs one unit of fuel. */
    method MainCommandLoop(fuel: nat, ghost below: seq<Frame>, ghost entry: FrameId) returns (o: RunOutcome, left: nat)
      requires Valid() && EntryKept(frames, below, entry)
      modifies this
      ensures Valid() && EntryKept(frames, below, entry) && left <= fuel
      ensures o.Completed? ==> !(0 <= Top().ip < |code|)
      ensures o.Thrown? ==> left < fuel
      ensures o.Completed? || o.Thrown? || o.Unsupported? || o.Diverged? || o.OutOfFuel?
    {
      left := fuel;
      while 0 <= Top().ip < |code|
        invariant Valid() && EntryKept(frames, below, entry) && left <= fuel
        decreases left
      {
        if left == 0 {
          return OutOfFuel, 0;
        }
        ghost var before := frames;
        var step := ExecuteCommand(code[Top().ip]);
        StepKeepsEntry(before, frames, below, entry);
        left := left - 1;
        match step {
          case Continue =>
          case Raised(exc) => return Thrown(exc), left;
          case NotModelled(c) => return Unsupported(c), left;
          case Hangs => return Diverged, left;
        }
      }
      o := Completed;
    }

    /** ExecuteCode: the dispatch loop is restarted after every exception a handler record catches;
        any other exception leaves. */
    method ExecuteCode(fuel: nat, ghost below: seq<Frame>, ghost entry: FrameId) returns (o: RunOutcome)
      requires Valid() && EntryKept(frames, below, entry) && |frames| > 0 && frames[0].isReentrant
      modifies this
      ensures Valid()
      ensures o.Completed? ==> EntryKept(frames, below, entry) && !(0 <= Top().ip < |code|)
      ensures o.Thrown? ==> EntryKept(frames, below, entry) || frames == below
      ensures !o.CallStackBroken? && !o.Thrown? ==> EntryKept(frames, below, entry)
    {
      var left := fuel;
      while true
        invariant Valid() && EntryKept(frames, below, entry)
        decreases left
      {
        var r, rest := MainCommandLoop(left, below, entry);
        if !r.Thrown? {
          return r;
        }
        left := rest;
        ghost var s := Stacks(operands, frames, handlers);
        var outcome := ShouldRethrowException(r.exc);
        if outcome == Rethrow {
          if |s.handlers| > 0 {
            RethrowLeavesCaller(s, r.exc, below, entry);
          }
          return r;
        } else if outcome == StackFault {
          return CallStackBroken;
        }
        CaughtKeepsEntry(s, r.exc, below, entry);
      }
    }

    // ---------------------------------------------------------------- calls

    /** Variable.Create or Variable.CreateReference for one local: a shared local takes the
        caller's cell, a new one a cell appended to the heap. */
    method TakeCell(init: LocalInit, locals: seq<nat>, ghost inits: seq<LocalInit>, ghost heap0: seq<Value>)
      returns (locals': seq<nat>)
      requires (locals, cells) == Allocate(inits, heap0)
      requires init.Alias? ==> init.cell < |cells|
      requires init.NewCell? ==> !init.value.Ref?
      requires NoRefs(cells)
      modifies this
      ensures (locals', cells) == Allocate(inits + [init], heap0)
      ensures locals' == locals + [if init.Alias? then init.cell else |old(cells)|]
      ensures cells == old(cells) + (if init.Alias? then [] else [init.value])
      ensures NoRefs(cells) && OnlyCells()
    {
      assert (inits + [init])[..|inits|] == inits;
      if init.Alias? {
        locals' := locals + [init.cell];
      } else {
        locals' := locals + [|cells|];
        cells := cells + [init.value];
      }
    }

    /** What the binding loops have built for the first i slots: one cell per local so far,
        the old heap kept, and every new cell a value. */
    ghost predicate Bound(info: MethodInfo, args: seq<Option<Value>>, heap0: seq<Value>, i: nat, locals: seq<nat>)
      reads this
    {
      i <= info.localCount && (i <= |info.params| || |args| <= |info.params|)
      && |heap0| <= |cells| && cells[..|heap0|] == heap0
      && (locals, cells) == Allocate(InitsUpTo(info.params, args, heap0, i), heap0)
      && NoRefs(cells) && (forall k :: 0 <= k < |locals| ==> locals[k] < |cells|)
    }

    /** One slot more: the local of slot i takes its cell. */
    method BindSlot(info: MethodInfo, args: seq<Option<Value>>, ghost heap0: seq<Value>, i: nat, locals: seq<nat>,
                    init: LocalInit)
      returns (locals': seq<nat>)
      requires Bound(info, args, heap0, i, locals) && i < info.localCount
      requires i + 1 <= |info.params| || |args| <= |info.params|
      requires init == InitAt(info.params, args, heap0, i)
      requires init.Alias? ==> init.cell < |cells|
      requires init.NewCell? ==> !init.value.Ref?
      modifies this
      ensures Bound(info, args, heap0, i + 1, locals') && OnlyCells()
    {
      InitsUpToNext(info.params, args, heap0, i);
      locals' := TakeCell(init, locals, InitsUpTo(info.params, args, heap0, i), heap0);
      assert cells[..|heap0|] == old(cells)[..|heap0|];
    }

    /** Nothing but the heap changed. */
    twostate predicate OnlyCells()
      reads this
    {
      operands == old(operands) && handlers == old(handlers) && frames == old(frames) && nextFrameId == old(nextFrameId)
    }

    /** The first loop of SetExecutionFrame: one local per passed argument. */
    method BindPassed(info: MethodInfo, args: seq<Option<Value>>) returns (locals: seq<nat>, e: Option<Exc>)
      requires NoRefs(cells) && DefaultsOk(info.params)
      requires forall i :: 0 <= i < |args| && args[i].Some? ==> !(args[i].value.Ref? && args[i].value.cell >= |cells|)
      modifies this
      ensures OnlyCells() && NoRefs(cells) && |old(cells)| <= |cells| && cells[..|old(cells)|] == old(cells)
      ensures e.Some? <==> |args| > |info.params| || |args| > info.localCount
      ensures e.Some? ==> e == Some(External(IndexOutOfRange))
      ensures e.None? ==> Bound(info, args, old(cells), |args|, locals)
    {
      ghost var heap0 := cells;
      locals := [];
      var i := 0;
      while i < |args|
        invariant i <= |args| && i <= |info.params| && Bound(info, args, heap0, i, locals) && OnlyCells()
      {
        if i >= |info.params| || i >= info.localCount {
          return locals, Some(External(IndexOutOfRange));
        }
        var init := ArgumentLocal(info.params[i], args[i], cells);
        if args[i].Some? && args[i].value.Ref? {
          assert cells[..|heap0|][args[i].value.cell] == cells[args[i].value.cell];
        }
        assert init == InitAt(info.params, args, heap0, i);
        locals := BindSlot(info, args, heap0, i, locals, init);
        i := i + 1;
      }
      e := None;
    }

    /** The second loop of SetExecutionFrame: the defaults of the parameters not passed. */
    method BindOmitted(info: MethodInfo, args: seq<Option<Value>>, ghost heap0: seq<Value>, locals0: seq<nat>)
      returns (locals: seq<nat>, e: Option<Exc>)
      requires |args| <= |info.params| && DefaultsOk(info.params) && Bound(info, args, heap0, |args|, locals0)
      modifies this
      ensures OnlyCells() && NoRefs(cells) && |heap0| <= |cells| && cells[..|heap0|] == heap0
      ensures e.Some? <==> |info.params| > info.localCount
      ensures e.Some? ==> e == Some(External(IndexOutOfRange))
      ensures e.None? ==> Bound(info, args, heap0, |info.params|, locals)
    {
      locals := locals0;
      var i := |args|;
      while i < |info.params|
        invariant |args| <= i <= |info.params| && Bound(info, args, heap0, i, locals) && OnlyCells()
      {
        if i >= info.localCount {
          return locals, Some(External(IndexOutOfRange));
        }
        locals := BindSlot(info, args, heap0, i, locals, NewCell(DefaultOf(info.params[i])));
        i := i + 1;
      }
      e := None;
    }

    /** The third loop of SetExecutionFrame: the remaining locals start Undefined. */
    method BindUnset(info: MethodInfo, args: seq<Option<Value>>, ghost heap0: seq<Value>, locals0: seq<nat>)
      returns (locals: seq<nat>)
      requires |args| <= |info.params| <= info.localCount && Bound(info, args, heap0, |info.params|, locals0)
      modifies this
      ensures OnlyCells() && Bound(info, args, heap0, info.localCount, locals)
    {
      locals := locals0;
      var i := |info.params|;
      while i < info.localCount
        invariant |info.params| <= i && Bound(info, args, heap0, i, locals) && OnlyCells()
      {
        locals := BindSlot(info, args, heap0, i, locals, NewCell(Undefined));
        i := i + 1;
      }
    }

    /** The three loops of SetExecutionFrame together. */
    method BindFrameLocals(info: MethodInfo, args: seq<Option<Value>>) returns (locals: seq<nat>, e: Option<Exc>)
      requires NoRefs(cells) && DefaultsOk(info.params)
      requires forall i :: 0 <= i < |args| && args[i].Some? ==> !(args[i].value.Ref? && args[i].value.cell >= |cells|)
      modifies this
      ensures OnlyCells() && NoRefs(cells)
      ensures |old(cells)| <= |cells| && cells[..|old(cells)|] == old(cells)
      ensures var b := BindLocals(info.params, args, info.localCount, old(cells));
        (e.Some? <==> b.Err?) && (b.Err? ==> e == Some(External(b.error)))
        && (b.Ok? ==> (locals, cells) == Allocate(b.value, old(cells)))
      ensures e.None? ==> forall k :: 0 <= k < |locals| ==> locals[k] < |cells|
    {
      ghost var heap0 := cells;
      locals, e := BindPassed(info, args);
      if e.Some? {
        return;
      }
      locals, e := BindOmitted(info, args, heap0, locals);
      if e.Some? {
        return;
      }
      locals := BindUnset(info, args, heap0, locals);
    }

    /** SetExecutionFrame: the locals are bound (see FrameBinding) and the frame is pushed. */
    method SetExecutionFrame(info: MethodInfo, args: seq<Option<Value>>, reentrant: bool) returns (e: Option<Exc>)
      requires Valid() && (|frames| > 0 || reentrant) && DefaultsOk(info.params)
      requires forall i :: 0 <= i < |args| && args[i].Some? ==> !(args[i].value.Ref? && args[i].value.cell >= |cells|)
      modifies this
      ensures Valid() && operands == old(operands) && handlers == old(handlers)
      ensures |old(cells)| <= |cells| && cells[..|old(cells)|] == old(cells)
      ensures var b := BindLocals(info.params, args, info.localCount, old(cells));
        (e.Some? <==> b.Err?)
        && (b.Err? ==> e == Some(External(b.error)) && frames == old(frames) && nextFrameId == old(nextFrameId))
        && (b.Ok? ==> var alloc := Allocate(b.value, old(cells));
              cells == alloc.1 && nextFrameId == old(nextFrameId) + 1
              && frames == old(frames) + [Frame(old(nextFrameId), info.name, info.entryPoint, alloc.0, reentrant,
                                                false, None, [], 0)])
    {
      ghost var heap0 := cells;
      var locals;
      locals, e := BindFrameLocals(info, args);
      MoreCellsOk(frames, nextFrameId, |heap0|, |cells|);
      assert Valid();
      if e.Some? {
        return;
      }
      PushFrame(Frame(nextFrameId, info.name, info.entryPoint, locals, reentrant, false, None, [], 0));
    }

    /** PopArguments: the count, then the arguments from the last to the first. */
    method PopArguments() returns (r: Result<seq<Value>, Exc>)
      requires Valid()
      modifies this
      ensures Valid() && FramesKept()
      ensures (r, operands) == PoppedArguments(old(operands), cells, rt.asNumber)
      ensures r.Ok? ==> RefsOk(r.value, |cells|)
    {
      ghost var ops0 := operands;
      var c := PopNumber();
      assert |ops0| > 0 ==> c == rt.asNumber(RawValue(ops0[|ops0| - 1], cells));
      if c.Err? {
        assert PoppedArguments(ops0, cells, rt.asNumber) == (Err(c.error), operands);
        return Err(c.error);
      }
      var argCount := c.value;
      if argCount < 0 {
        assert PoppedArguments(ops0, cells, rt.asNumber) == (Err(External(NegativeSize)), operands);
        return Err(External(NegativeSize));
      }
      ghost var ops := operands;
      var args := seq(argCount, _ => Undefined);
      var k := argCount;
      while k > 0
        invariant 0 <= k <= argCount && |args| == argCount && argCount - k <= |ops|
        invariant operands == ops[..|ops| - (argCount - k)]
        invariant args[k..] == ops[|ops| - (argCount - k)..]
        invariant Valid() && FramesKept()
      {
        var v := Pop();
        if v.Err? {
          assert PoppedArguments(ops0, cells, rt.asNumber) == (Err(External(EmptyStack)), operands);
          return Err(v.error);
        }
        ghost var done := args[k..];
        args := args[k - 1 := v.value];
        k := k - 1;
        assert args[k + 1..] == done;
      }
      assert args == ops[|ops| - argCount..];
      assert ops == ops0[..|ops0| - 1];
      assert ops0[|ops0| - 1 - argCount..|ops0| - 1] == args;
      assert operands == ops0[..|ops0| - 1 - argCount];
      assert PoppedArguments(ops0, cells, rt.asNumber) == (Ok(args), operands);
      forall i | 0 <= i < |args| && args[i].Ref?
        ensures args[i].cell < |cells|
      {
        assert args[i] == ops0[|ops| - argCount + i];
      }
      r := Ok(args);
    }

    /** CallFunc and CallProc of a method of the script itself: the arguments are popped, the
        caller moves past the call (Return does not), and the method's frame is pushed; it
        discards its return value when a function is called as a procedure. */
    method OpCall(arg: int, asFunc: bool) returns (e: Option<Exc>)
      requires Valid() && |frames| > 0
      modifies this
      ensures Valid() && CallStackStep(old(frames), frames)
      ensures !(0 <= arg < |methods|) ==> e == Some(External(IndexOutOfRange)) && FramesKept() && operands == old(operands)
      ensures 0 <= arg < |methods| ==>
        var (args, rest) := PoppedArguments(old(operands), old(cells), rt.asNumber);
        var info := methods[arg];
        var caller := old(frames)[|old(frames)| - 1 := Advanced(old(Top()))];
        if args.Err? then e == Some(args.error) && FramesKept() && operands == rest
        else (var b := BindLocals(info.params, Wrapped(args.value), info.localCount, old(cells));
          operands == rest && handlers == old(handlers)
          && (b.Err? ==> (e == Some(External(b.error)) && frames == caller
                          && |old(cells)| <= |cells| && cells[..|old(cells)|] == old(cells)))
          && (b.Ok? ==> (e.None? && cells == Allocate(b.value, old(cells)).1 && nextFrameId == old(nextFrameId) + 1
                && frames == caller + [Frame(old(nextFrameId), info.name, info.entryPoint,
                                             Allocate(b.value, old(cells)).0, false,
                                             info.isFunction && !asFunc, None, [], 0)])))
    {
      if !(0 <= arg < |methods|) {
        return Some(External(IndexOutOfRange));
      }
      e := CallMethod(methods[arg], asFunc);
    }

    /** OpCall of a method that exists. */
    method CallMethod(info: MethodInfo, asFunc: bool) returns (e: Option<Exc>)
      requires Valid() && |frames| > 0 && DefaultsOk(info.params)
      modifies this
      ensures Valid() && CallStackStep(old(frames), frames)
      ensures var (args, rest) := PoppedArguments(old(operands), old(cells), rt.asNumber);
        var caller := old(frames)[|old(frames)| - 1 := Advanced(old(Top()))];
        if args.Err? then e == Some(args.error) && FramesKept() && operands == rest
        else (var b := BindLocals(info.params, Wrapped(args.value), info.localCount, old(cells));
          operands == rest && handlers == old(handlers)
          && (b.Err? ==> (e == Some(External(b.error)) && frames == caller
                          && |old(cells)| <= |cells| && cells[..|old(cells)|] == old(cells)))
          && (b.Ok? ==> (e.None? && cells == Allocate(b.value, old(cells)).1 && nextFrameId == old(nextFrameId) + 1
                && frames == caller + [Frame(old(nextFrameId), info.name, info.entryPoint,
                                             Allocate(b.value, old(cells)).0, false,
                                             info.isFunction && !asFunc, None, [], 0)])))
    {
      var args := PopArguments();
      if args.Err? {
        return Some(args.error);
      }
      ghost var before := frames;
      NextInstruction();
      ghost var caller := frames;
      e := SetExecutionFrame(info, Wrapped(args.value), false);
      if e.Some? {
        return;
      }
      SetTop(Top().(discardReturnValue := info.isFunction && !asFunc));
      assert frames[..|before|] == caller;
    }

    /** ExecuteMethod: the reentrant entry of a script method. Its frame is pushed on the current
        call stack and the code runs; a function's result is popped, and the frame is popped
        again unless it is the only one. An exception leaves with the frames as unwinding left
        them: the entry's frames, or the caller's. */
    method ExecuteMethod(info: MethodInfo, args: seq<Value>, fuel: nat) returns (r: Result<Option<Value>, RunOutcome>)
      requires Valid() && DefaultsOk(info.params) && RefsOk(args, |cells|)
      modifies this
      ensures Valid()
      ensures var b := BindLocals(info.params, Wrapped(args), info.localCount, old(cells));
        b.Err? ==> (r == Err(Thrown(External(b.error))) && frames == old(frames)
                    && operands == old(operands) && handlers == old(handlers))
      ensures r.Err? ==> !r.error.Completed?
      ensures r.Ok? ==> (r.value.Some? <==> info.isFunction)
      ensures r.Ok? || r.error.Thrown? ==> |old(frames)| <= |frames| && frames[..|old(frames)|] == old(frames)
      ensures r.Ok? && |old(frames)| == 0 ==> (|frames| > 0 && frames[0].id == old(nextFrameId)
                                               && frames[0].isReentrant)
    {
      ghost var below := frames;
      ghost var entry := nextFrameId;
      var e := SetExecutionFrame(info, Wrapped(args), true);
      if e.Some? {
        return Err(Thrown(e.value));
      }
      assert frames[..|below|] == below;
      var o := ExecuteCode(fuel, below, entry);
      if !o.Completed? {
        return Err(o);
      }
      var result: Option<Value> := None;
      if info.isFunction {
        var v := Pop();
        if v.Err? {
          return Err(Thrown(v.error));
        }
        result := Some(v.value);
      }
      if |frames| > 1 {
        ghost var f := frames;
        PopFrame();
        assert frames[..|below|] == f[..|below|];
      }
      r := Ok(result);
    }

    /** PrepareContextCallArguments: the arguments and the object are popped, the method name is
        the constant the argument indexes, and the argument array is built for the context's
        signature of that method, given here as `dynamic` and `params`. */
    method PrepareContextCall(arg: int, dynamic: bool, params: seq<ContextParam>)
      returns (r: Result<(Value, Text, seq<PreparedArg>), Exc>)
      requires Valid()
      modifies this
      ensures Valid() && FramesKept()
      ensures var (args, rest) := PoppedArguments(old(operands), cells, rt.asNumber);
        if args.Err? then r == Err(args.error) && operands == rest
        else if |rest| == 0 then r == Err(External(EmptyStack)) && operands == rest
        else if !(0 <= arg < |constants|) then r == Err(External(IndexOutOfRange)) && operands == rest[..|rest| - 1]
        else (var p := PreparedArguments(args.value, dynamic, params, cells);
          operands == rest[..|rest| - 1]
          && (p.Err? ==> r == Err(p.error))
          && (p.Ok? ==> r == Ok((rest[|rest| - 1], rt.asString(constants[arg]), p.value))))
    {
      var factArgs := PopArguments();
      if factArgs.Err? {
        return Err(factArgs.error);
      }
      var obj := Pop();
      if obj.Err? {
        return Err(obj.error);
      }
      if !(0 <= arg < |constants|) {
        return Err(External(IndexOutOfRange));
      }
      var methodName := rt.asString(constants[arg]);
      var argValues := PrepareArguments(factArgs.value, dynamic, params, cells);
      if argValues.Err? {
        return Err(argValues.error);
      }
      r := Ok((obj.value, methodName, argValues.value));
    }
  }
}

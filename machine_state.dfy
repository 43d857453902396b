/**
 * The state of the stack machine (ScriptEngine/Machine/MachineInstance.cs)
 * as values: commands, execution frames, exception-handler records and the
 * exceptions a handler can raise, together with the specification of the
 * two multi-step state changes, exception unwinding (ShouldRethrowException)
 * and the handler-record cleanup of Return.
 *
 * An ExecutionFrame is an object compared by reference; here each frame has
 * an identity number that no other frame on the call stack shares. Script
 * variables (IVariable) are cells of a heap, and a Ref value on the operand
 * stack refers to one.
 */
module MachineState {
  import opened Wrappers
  import opened Builtins
  import opened Values

  /** The operation codes with a handler in this model; every other code is Unmodelled. */
  datatype OpCode =
    | Nop | PushConst | PushInt | PushBool | PushUndef | PushNull | PushLoc | LoadLoc
    | Add | Sub | Mul | Div | Mod | Neg
    | Equals | Less | Greater | LessOrEqual | GreaterOrEqual | NotEqual | Not
    | And | Or | ArgNum | PushDefaultArg | Jmp | JmpFalse | Return | JmpCounter | Inc
    | BeginTry | EndTry | RaiseException | LineNum | MakeRawValue | MakeBool | PushTmp | PopTmp | ExitTry
    | CallFunc | CallProc
    | Left | Right | Mid | StrPos | ChrCode | StrLineCount | StrEntryCount
    | Unmodelled(code: nat)

  datatype Command = Command(code: OpCode, argument: int)

  type FrameId = nat

  /** What the handlers can throw. A .NET exception escaping a handler (an empty Stack, an index
      outside an array, a negative array size) reaches the unwinding as an ExternalSystemException. */
  datatype Fault = EmptyStack | IndexOutOfRange | NegativeSize
    | Overflow                      // OverflowException of a checked (int) cast
    | ArgumentOutOfRange            // ArgumentOutOfRangeException of String.Substring

  /** What RaiseException finds in an ExceptionInfoContext value (ИнформацияОбОшибке): its
      description, whether it is an error template (from ОписаниеОшибки with parameters), the
      template's parameters and the template's inner exception. */
  datatype ErrorInfo = ErrorInfo(description: Text, isErrorTemplate: bool, parameters: Value, innerException: Option<Value>)

  datatype Exc =
    | External(fault: Fault)
    | EmptyRaise                    // RuntimeException(""): re-raise with no exception in the frame
    | UserRaised(message: Text)     // RuntimeException(value.AsString())
    | Parametrized(message: Text, parameters: Value, inner: Option<Value>)  // ParametrizedRuntimeException
    | TooManyArgumentsPassed
    | MissedArgument
    | TooFewArgumentsPassed
    | Conversion(code: nat)         // conversions and operations of the values that fail
    | Builtin(error: BuiltinError)  // WrongStackConditionException of a built-in function

  /** An execution frame: the fields the modelled handlers read and write. */
  datatype Frame = Frame(
    id: FrameId,
    methodName: Text,
    ip: int,
    locals: seq<nat>,               // the cell of each local variable
    isReentrant: bool,
    discardReturnValue: bool,
    lastException: Option<Exc>,
    localFrameStack: seq<Value>,    // LocalFrameStack, top last
    lineNumber: int)

  /** ExceptionJumpInfo: handler address, the frame that owns the handler, operand-stack depth. */
  datatype ExceptionJumpInfo = ExceptionJumpInfo(handlerAddress: int, handlerFrame: FrameId, stackSize: nat)

  /** The operations on values the machine delegates to the values themselves. */
  datatype Runtime = Runtime(
    asBoolean: Value -> Result<bool, Exc>,
    asNumber: Value -> Result<int, Exc>,
    asString: Value -> Text,
    arithmetic: (OpCode, Value, Value) -> Result<Value, Exc>,
    negate: Value -> Result<Value, Exc>,
    equals: (Value, Value) -> bool,
    compare: (Value, Value) -> Result<int, Exc>,
    asErrorInfo: Value -> Option<ErrorInfo>)     // the `is ExceptionInfoContext` test

  /** `(int)` applied to a number: OverflowException outside the 32-bit range. */
  function IntCast(n: Result<int, Exc>): (r: Result<int, Exc>)
    ensures r.Ok? <==> n.Ok? && InInt32(n.value)
    ensures r.Ok? ==> r == n
    ensures n.Ok? && !InInt32(n.value) ==> r == Err(External(Overflow))
    ensures n.Err? ==> r == n
  {
    if n.Err? then n else if InInt32(n.value) then n else Err(External(Overflow))
  }

  /** The exception RaiseException throws for the raw value `v`: an error template's
      description, parameters and inner exception; for any other ExceptionInfoContext its
      description, no parameters and the value itself as the inner exception; for any other
      value a RuntimeException with its text. */
  function RaisedBy(rt: Runtime, v: Value): Exc
  {
    match rt.asErrorInfo(v)
    case Some(info) =>
      if info.isErrorTemplate then Parametrized(info.description, info.parameters, info.innerException)
      else Parametrized(info.description, Undefined, Some(v))
    case None => UserRaised(rt.asString(v))
  }

  /** GetRawValue: a variable gives its value; other values are themselves. */
  function RawValue(v: Value, cells: seq<Value>): Value
  {
    if v.Ref? && v.cell < |cells| then cells[v.cell] else v
  }

  /** The call stack is well formed: the bottom frame is a reentrant entry, frame identities
      increase from the bottom and are below the next fresh one, and every local is a cell. */
  predicate FramesOk(frames: seq<Frame>, nextId: FrameId, cellCount: nat)
  {
    (|frames| > 0 ==> frames[0].isReentrant)
    && (forall i, j :: 0 <= i < j < |frames| ==> frames[i].id < frames[j].id)
    && (forall i :: 0 <= i < |frames| ==> frames[i].id < nextId)
    && (forall i, k :: 0 <= i < |frames| && 0 <= k < |frames[i].locals| ==> frames[i].locals[k] < cellCount)
  }

  /** Frames that agree on what FramesOk looks at. */
  predicate SameShape(f: Frame, g: Frame)
  {
    f.id == g.id && f.locals == g.locals && f.isReentrant == g.isReentrant
  }

  lemma TopReplacedOk(frames: seq<Frame>, f: Frame, nextId: FrameId, cellCount: nat)
    requires FramesOk(frames, nextId, cellCount) && |frames| > 0
    requires SameShape(f, frames[|frames| - 1])
    ensures FramesOk(frames[|frames| - 1 := f], nextId, cellCount)
  {
    var r := frames[|frames| - 1 := f];
    forall i, k | 0 <= i < |r| && 0 <= k < |r[i].locals|
      ensures r[i].locals[k] < cellCount
    {
      assert r[i].locals == frames[i].locals;
    }
  }

  lemma PrefixOk(frames: seq<Frame>, n: nat, nextId: FrameId, cellCount: nat)
    requires FramesOk(frames, nextId, cellCount) && n <= |frames|
    ensures FramesOk(frames[..n], nextId, cellCount)
  {
  }

  /** PushFrame of a frame with the next fresh identity, whose locals are cells, onto a call
      stack where a first frame is a reentrant entry. */
  lemma PushedOk(frames: seq<Frame>, f: Frame, nextId: FrameId, cellCount: nat)
    requires FramesOk(frames, nextId, cellCount) && f.id == nextId
    requires |frames| == 0 ==> f.isReentrant
    requires forall k :: 0 <= k < |f.locals| ==> f.locals[k] < cellCount
    ensures FramesOk(frames + [f], nextId + 1, cellCount)
  {
    var r := frames + [f];
    forall i, k | 0 <= i < |r| && 0 <= k < |r[i].locals|
      ensures r[i].locals[k] < cellCount
    {
      if i < |frames| {
        assert r[i] == frames[i];
      }
    }
  }

  /** New cells do not disturb a well-formed call stack. */
  lemma MoreCellsOk(frames: seq<Frame>, nextId: FrameId, cellCount: nat, more: nat)
    requires FramesOk(frames, nextId, cellCount) && cellCount <= more
    ensures FramesOk(frames, nextId, more)
  {
  }

  // ---------------------------------------------------------------- unwinding

  /** Where popping frames in search of the handler's frame stopped. */
  datatype Stop = AtHandler | AtReentrant | Exhausted

  /** The unwinding loop: frames are popped from the top until the top is the handler's frame
      or a reentrant frame; popping the last frame leaves nothing to Peek at. */
  function UnwindTo(frames: seq<Frame>, target: FrameId): (r: (Stop, seq<Frame>))
    ensures |r.1| <= |frames|
    ensures r.0 == Exhausted <==> |r.1| == 0
    decreases |frames|
  {
    if |frames| == 0 then (Exhausted, [])
    else
      var top := frames[|frames| - 1];
      if top.id == target then (AtHandler, frames)
      else if top.isReentrant then (AtReentrant, frames)
      else UnwindTo(frames[..|frames| - 1], target)
  }

  lemma {:induction false} UnwindToShape(frames: seq<Frame>, target: FrameId)
    ensures var (stop, rest) := UnwindTo(frames, target);
      rest == frames[..|rest|]
      && (stop == Exhausted <==> |rest| == 0)
      && (stop == AtHandler ==> rest[|rest| - 1].id == target)
      && (stop == AtReentrant ==> rest[|rest| - 1].isReentrant && rest[|rest| - 1].id != target)
      && (forall i :: |rest| <= i < |frames| ==> frames[i].id != target && !frames[i].isReentrant)
    decreases |frames|
  {
    if |frames| > 0 {
      var top := frames[|frames| - 1];
      if top.id != target && !top.isReentrant {
        UnwindToShape(frames[..|frames| - 1], target);
        var rest := UnwindTo(frames, target).1;
        assert frames[..|frames| - 1][..|rest|] == frames[..|rest|];
      }
    }
  }

  /** A call stack whose bottom frame is reentrant is never exhausted by the search. */
  lemma UnwindNeverExhausts(frames: seq<Frame>, target: FrameId)
    requires |frames| > 0 && frames[0].isReentrant
    ensures UnwindTo(frames, target).0 != Exhausted
  {
    UnwindToShape(frames, target);
  }

  datatype UnwindOutcome = Rethrow | Caught | StackFault

  /** The machine parts unwinding touches. */
  datatype Stacks = Stacks(operands: seq<Value>, frames: seq<Frame>, handlers: seq<ExceptionJumpInfo>)

  /** ShouldRethrowException: with no handler record the exception goes on; otherwise the top
      record is popped and frames are popped until its frame is current, where the InstructionPointer
      becomes the handler address, the frame's LastException the exception, and the operand
      stack is cut back to the depth recorded; a reentrant frame met first gets the record back
      and is itself popped, and the exception goes on. */
  function Unwind(s: Stacks, exc: Exc): (UnwindOutcome, Stacks)
  {
    if |s.handlers| == 0 then (Rethrow, s)
    else
      var handler := s.handlers[|s.handlers| - 1];
      var popped := s.handlers[..|s.handlers| - 1];
      var (stop, frames) := UnwindTo(s.frames, handler.handlerFrame);
      match stop
      case Exhausted => (StackFault, Stacks(s.operands, [], popped))
      case AtReentrant =>
        var outer := frames[..|frames| - 1];
        (if |outer| == 0 then StackFault else Rethrow, Stacks(s.operands, outer, s.handlers))
      case AtHandler =>
        var top := frames[|frames| - 1];
        var depth := if |s.operands| < handler.stackSize then |s.operands| else handler.stackSize;
        (Caught, Stacks(s.operands[..depth],
                        frames[|frames| - 1 := top.(ip := handler.handlerAddress, lastException := Some(exc))],
                        popped))
  }

  /** Unwind in terms of where the search for the handler's frame stopped. */
  lemma UnwindByStop(s: Stacks, exc: Exc)
    requires |s.handlers| > 0
    ensures var handler := s.handlers[|s.handlers| - 1];
      var popped := s.handlers[..|s.handlers| - 1];
      var (stop, frames) := UnwindTo(s.frames, handler.handlerFrame);
      (stop == Exhausted ==> Unwind(s, exc) == (StackFault, Stacks(s.operands, [], popped)))
      && (stop == AtReentrant ==>
            Unwind(s, exc) == (if |frames| == 1 then StackFault else Rethrow,
                               Stacks(s.operands, frames[..|frames| - 1], s.handlers)))
      && (stop == AtHandler ==>
            Unwind(s, exc) == (Caught, Stacks(s.operands[..if |s.operands| < handler.stackSize then |s.operands| else handler.stackSize],
                                              frames[|frames| - 1 := frames[|frames| - 1].(ip := handler.handlerAddress, lastException := Some(exc))],
                                              popped)))
  {
  }

  /** With no handler record the exception is rethrown and nothing changes. */
  lemma NoHandlerRethrows(s: Stacks, exc: Exc)
    requires |s.handlers| == 0
    ensures Unwind(s, exc) == (Rethrow, s)
  {
  }

  /** A caught exception: the top record is gone, only non-reentrant frames that do not own it
      were popped, the owner is current with the InstructionPointer at the handler and the exception stored,
      and the operand stack is cut back to the recorded depth (or left when it is shallower). */
  lemma CaughtState(s: Stacks, exc: Exc)
    requires |s.handlers| > 0
    requires Unwind(s, exc).0 == Caught
    ensures var handler := s.handlers[|s.handlers| - 1];
      var r := Unwind(s, exc).1;
      var n := |r.frames|;
      r.handlers == s.handlers[..|s.handlers| - 1]
      && 0 < n <= |s.frames|
      && r.frames[..n - 1] == s.frames[..n - 1]
      && r.frames[n - 1] == s.frames[n - 1].(ip := handler.handlerAddress, lastException := Some(exc))
      && r.frames[n - 1].id == handler.handlerFrame
      && (forall i :: n <= i < |s.frames| ==> !s.frames[i].isReentrant && s.frames[i].id != handler.handlerFrame)
      && r.operands == s.operands[..|r.operands|]
      && (|s.operands| >= handler.stackSize ==> |r.operands| == handler.stackSize)
      && (|s.operands| < handler.stackSize ==> r.operands == s.operands)
  {
    UnwindToShape(s.frames, s.handlers[|s.handlers| - 1].handlerFrame);
  }

  /** A reentrant frame met before the handler's frame: the record stays, the frames above and
      including that reentrant frame are popped, and the exception goes on. */
  lemma ReentrantFrameRethrows(s: Stacks, exc: Exc)
    requires |s.frames| > 0 && s.frames[0].isReentrant && |s.handlers| > 0
    requires Unwind(s, exc).0 != Caught
    ensures var handler := s.handlers[|s.handlers| - 1];
      var r := Unwind(s, exc).1;
      var n := |r.frames|;
      r.handlers == s.handlers && r.operands == s.operands
      && n < |s.frames| && r.frames == s.frames[..n]
      && s.frames[n].isReentrant && s.frames[n].id != handler.handlerFrame
      && (forall i :: n < i < |s.frames| ==> !s.frames[i].isReentrant && s.frames[i].id != handler.handlerFrame)
      && (Unwind(s, exc).0 == StackFault <==> n == 0)
  {
    var handler := s.handlers[|s.handlers| - 1];
    UnwindToShape(s.frames, handler.handlerFrame);
    UnwindNeverExhausts(s.frames, handler.handlerFrame);
  }

  /** When the handler's frame is on the stack and no reentrant frame sits above it, the
      exception is caught there. */
  lemma HandlerFrameReached(s: Stacks, exc: Exc, k: nat)
    requires |s.handlers| > 0 && k < |s.frames|
    requires s.frames[k].id == s.handlers[|s.handlers| - 1].handlerFrame
    requires forall i :: k < i < |s.frames| ==> !s.frames[i].isReentrant && s.frames[i].id != s.frames[k].id
    ensures Unwind(s, exc).0 == Caught
    ensures |Unwind(s, exc).1.frames| == k + 1
  {
    UnwindToShape(s.frames, s.frames[k].id);
  }

  // ---------------------------------------------------------------- Return's record cleanup

  /** The handler records left after every top record owned by `frame` is removed. */
  function DropOwned(handlers: seq<ExceptionJumpInfo>, frame: FrameId): (r: seq<ExceptionJumpInfo>)
    ensures |r| <= |handlers|
    decreases |handlers|
  {
    if |handlers| > 0 && handlers[|handlers| - 1].handlerFrame == frame then
      DropOwned(handlers[..|handlers| - 1], frame)
    else handlers
  }

  /** DropOwned removes a run of records of `frame` from the top and nothing else, and the
      record left on top, if any, belongs to another frame. */
  lemma {:induction false} DropOwnedShape(handlers: seq<ExceptionJumpInfo>, frame: FrameId)
    ensures var r := DropOwned(handlers, frame);
      r == handlers[..|r|]
      && (|r| > 0 ==> r[|r| - 1].handlerFrame != frame)
      && (forall i :: |r| <= i < |handlers| ==> handlers[i].handlerFrame == frame)
    decreases |handlers|
  {
    if |handlers| > 0 && handlers[|handlers| - 1].handlerFrame == frame {
      var init := handlers[..|handlers| - 1];
      DropOwnedShape(init, frame);
      var r := DropOwned(init, frame);
      assert init[..|r|] == handlers[..|r|];
    }
  }
}

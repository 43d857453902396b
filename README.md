# OneScript engine core in Dafny

This project models the core of OneScript, an engine for the 1C:Enterprise-style
scripting language (BSL). Every modelled component has its own module, with its
proof beside it:

- **Stack machine** (`MachineInstance.cs`) is modelled in `machine.dfy`, with
  `machine_state.dfy`, `frame_binding.dfy`, `call_arguments.dfy` and
  `builtins.dfy`. It covers:
  - the operand, frame and exception-handler stacks;
  - the main command loop;
  - the try/catch/unwind machinery and return;
  - the jump opcodes;
  - frame binding of arguments and locals;
  - argument popping and context-call argument checks;
  - the string and integer built-ins.
- **Parser** (`DefaultBslParser.cs`) is modelled in `parser.dfy`, with
  `parse_rules.dfy` and `lexemes.dfy`. It builds the syntax tree through the
  builder of `syntax_tree.dfy`, and `ast_builder.dfy` holds DefaultAstBuilder's
  node-class choice. It covers:
  - the expression levels;
  - calls and member access;
  - statements and loops;
  - annotations;
  - the variable and method sections;
  - error recovery.
- **Binary data helpers** (`GlobalBinaryData.cs`) are modelled in `bytes.dfy`,
  `digit_pairs.dfy`, `hex_text.dfy`, `hex_table.dfy`, `byte_order.dfy` and
  `binary_data.dfy`.
- **Structure and fixed structure** (`StructureImpl.cs`, `FixedStructureImpl.cs`)
  are modelled in `collections.dfy`, over `registry.dfy`, `key_lists.dfy` and
  `sequences.dfy`.
- **Smaller components**, one file each:
  - enumerations: `enumeration.dfy`;
  - the stack-trace collection: `stack_trace.dfy`;
  - the event processor: `events.dfy`;
  - loaded-module construction: `loaded_module.dfy`;
  - the compiler service's scope discipline: `compiler_service.dfy`;
  - the preprocessor handler list and the import directive handler:
    `preprocessor.dfy`, `import_directives.dfy`;
  - the native compiler's statement-block stack and binary-operator
    resolution: `blocks_writer.dfy`, `binary_op_compiler.dfy`.

**Form of the model.** Where the source changes objects in place, the model is
a class with `modifies` clauses. This covers:

- the machine;
- the parser;
- the structures, the enumeration and the event processor;
- the writers and handler lists.

The pure parts are datatypes and functions. The source's loops are `while`
loops with invariants: the command loop, the unwind loop, `PowInt`, the string
counters, the hex decoders and the constructors that fill tables. Each method
is proved against a specification function, and the lemmas beside it state
what the source promises about that function.

**Representation choices:**

- Strings are sequences of UTF-16 code units.
- Exceptions are `Result` values. In the parser, an InternalParseException
  thrown by AddError inside TryParseNode is the `pending` field. Every caller
  returns as soon as it is set, after redoing its `finally` clean-ups.
- Where the parser as written would repeat a loop for ever, it sets `hung` and
  stops.

**The `corrected` switch.** The parser's `corrected` constant selects either
the code as written or the evidently intended version of the three parser
defects listed under "## Findings". Every statement about the as-written code
is proved with it off, and every statement about the intended code with it on.

Source paths below are relative to the repository root.

## Model

| member | source | states |
|---|---|---|
| Builtins.LeftRules | src/ScriptEngine/Machine/MachineInstance.cs:1603-1619 | Left keeps max(0, min(len, length of s)) units and the result is a prefix of s: "" for a negative length, the whole string for a long one |
| Builtins.RightRules | src/ScriptEngine/Machine/MachineInstance.cs:1621-1639 | Right keeps the clamped length and the result is a suffix of s |
| Builtins.LeftRightSplit | src/ScriptEngine/Machine/MachineInstance.cs:1603-1639 | Left(s, k) + Right(s, (length of s) - k) == s for every cut point k |
| Builtins.Wrap32 | src/ScriptEngine/Machine/MachineInstance.cs:1662 | unchecked `int` addition: the result is in the 32-bit range and congruent to the exact sum modulo 2^32 |
| Builtins.Wrap32Rules | src/ScriptEngine/Machine/MachineInstance.cs:1662 | wrapping leaves in-range values alone; a sum just past Int32.MaxValue comes out negative |
| Builtins.MidInRange | src/ScriptEngine/Machine/MachineInstance.cs:1641-1678 | when neither the length Mid works with nor start plus that length leaves the 32-bit range, Mid is the clamping MidClamped (a start below 1 counts as 1, a negative or overlong count takes the rest) |
| Builtins.MidOverflowThrows | src/ScriptEngine/Machine/MachineInstance.cs:1662-1672 | Mid("abc", 2, Int32.MaxValue) wraps `start+len`, passes the overlong test and Substring throws, where the clamping reading gives "bc" |
| Builtins.MidRestOverflowThrows | src/ScriptEngine/Machine/MachineInstance.cs:1648-1672 | Mid without a count at start 4-Int32.MaxValue: the rest length wraps and Substring throws |
| Builtins.MidRules | src/ScriptEngine/Machine/MachineInstance.cs:1659-1672 | the clamping Mid case by case: "" past the end or for count 0, the rest of the string for a missing, negative or overlong count, otherwise exactly count units from start |
| Builtins.MidIsLeftOfTail | src/ScriptEngine/Machine/MachineInstance.cs:1641-1678 | Mid with a count is Left of Mid without one, for any start inside the string |
| Builtins.IndexOfFrom | src/ScriptEngine/Machine/MachineInstance.cs:1685 | ordinal IndexOf from an index: -1 or a position at or after it where the needle occurs |
| Builtins.IndexOfFromIsFirst | src/ScriptEngine/Machine/MachineInstance.cs:1685 | IndexOf finds the first occurrence: none lies between `from` and the result |
| Builtins.StrPosRules | src/ScriptEngine/Machine/MachineInstance.cs:1680-1688 | StrPos is 0 exactly when the needle does not occur, and otherwise one more than the first occurrence |
| Builtins.StrPosEmptyNeedle | src/ScriptEngine/Machine/MachineInstance.cs:1680-1688 | the empty needle is found at position 1 |
| Builtins.StrLineCount | src/ScriptEngine/Machine/MachineInstance.cs:1814-1831 | the loop returns one more than the number of line feeds in the string |
| Builtins.CountBound | src/ScriptEngine/Machine/MachineInstance.cs:1833-1852 | the occurrences counted fit side by side in what is left of the string |
| Builtins.CountFromIndexOf | src/ScriptEngine/Machine/MachineInstance.cs:1833-1852 | counting from an index is 0 when IndexOf finds nothing, else one plus counting after the match |
| Builtins.StrEntryCount | src/ScriptEngine/Machine/MachineInstance.cs:1833-1852 | the loop returns the number of non-overlapping occurrences taken greedily from the left (NonOverlappingCount), and 1 for an empty needle in an empty string |
| Builtins.CountRepeat | src/ScriptEngine/Machine/MachineInstance.cs:1833-1852 | a needle written n times in a row is counted n times |
| Builtins.Chr | src/ScriptEngine/Machine/MachineInstance.cs:1745-1752 | a code in 0..65535 gives the one-unit string holding it; any other code gives "" |
| Builtins.ChrCodeRules | src/ScriptEngine/Machine/MachineInstance.cs:1754-1778 | a stack error exactly for an argument count other than 1 or 2; otherwise the code of the unit at the 1-based position, or -1 outside the string |
| Builtins.ChrCodeRoundTrip | src/ScriptEngine/Machine/MachineInstance.cs:1745-1778 | ChrCode of Chr(c) is c for every code in 0..65535, and Chr of the code at position p is the unit at p |
| Builtins.TrimR | src/ScriptEngine/Machine/MachineInstance.cs:1576-1594 | the result is the longest prefix that does not end in white space, and everything cut off is white space |
| Builtins.PowHalve | src/ScriptEngine/Machine/MachineInstance.cs:2262-2275 | one step of binary exponentiation: b^e == (e odd ? b : 1) * (b*b)^(e/2) |
| Builtins.PowInt | src/ScriptEngine/Machine/MachineInstance.cs:2262-2275 | the square-and-multiply loop over an unsigned 32-bit exponent returns b^e |
| CallArguments.PadArguments | src/ScriptEngine/Machine/MachineInstance.cs:953-973 | a context with dynamic signatures gets the arguments as they are; any other gets an array of the declared length, the arguments first and the skipped marker after |
| CallArguments.PaddingRules | src/ScriptEngine/Machine/MachineInstance.cs:953-973 | with no more arguments than declared, a fixed-signature call gets exactly the declared number of slots: those passed, in order, then the skipped marker |
| CallArguments.PrepareArguments | src/ScriptEngine/Machine/MachineInstance.cs:1034-1087 | the argument loops of PrepareContextCallArguments compute PreparedArguments: TooManyArgumentsPassed, MissedArgument or TooFewArgumentsPassed, or the slots |
| CallArguments.PreparationRules | src/ScriptEngine/Machine/MachineInstance.cs:1061-1085 | each check of a fixed-signature call in both directions (too many arguments; a skipped argument with no default; an omitted trailing parameter with no default), and a by-reference parameter never receives a bare value |
| CallArguments.DynamicAcceptsAll | src/ScriptEngine/Machine/MachineInstance.cs:1044-1055 | a context with dynamic signatures accepts any argument list, one slot per argument |
| FrameBinding.InitsUpToNext | src/ScriptEngine/Machine/MachineInstance.cs:120-169 | binding one more slot appends exactly that slot's local |
| FrameBinding.BindingRules | src/ScriptEngine/Machine/MachineInstance.cs:120-169 | one local per declared local; a variable argument is aliased unless the parameter is ExplicitByVal (then copied); a null or omitted argument takes the declared default or Undefined; the other locals start Undefined; more arguments than locals is an error |
| FrameBinding.AllocateRules | src/ScriptEngine/Machine/MachineInstance.cs:120-169 | allocation keeps every existing cell, gives an aliased local the caller's cell, and gives each new variable its own fresh cell holding its first value |
| FrameBinding.BoundLocals | src/ScriptEngine/Machine/MachineInstance.cs:120-169 | a by-reference argument variable is the very cell of its local, so a write to the local is a write to the caller's variable; a copied argument lives in a new cell |
| Machine.PushedArgumentsPop | src/ScriptEngine/Machine/MachineInstance.cs:891-901 | arguments pushed before their count come back from PopArguments in push order, and the stack below them is left as it was |
| Machine.PoppedArgumentsSplit | src/ScriptEngine/Machine/MachineInstance.cs:891-901 | a successful PopArguments splits the operand stack into what stays, the arguments and the count |
| Machine.StepKeepsEntry | src/ScriptEngine/Machine/MachineInstance.cs:84-118 | no single command reaches below a reentrant entry: the caller's frames and the entry stay and no other reentrant frame appears |
| Machine.CaughtKeepsEntry | src/ScriptEngine/Machine/MachineInstance.cs:433-457 | a caught exception leaves the caller's frames and the entry in place, because the search stops at the reentrant entry at the latest |
| Machine.RethrowLeavesCaller | src/ScriptEngine/Machine/MachineInstance.cs:436-443 | an exception whose handler record lies below the entry pops exactly the frames of the reentrant call and goes on to the caller |
| Machine.Machine.constructor | src/ScriptEngine/Machine/MachineInstance.cs:345-354 | a machine after Reset: empty operand, call and handler stacks |
| Machine.Machine.NextInstruction | src/ScriptEngine/Machine/MachineInstance.cs:2486-2489 | the current frame's InstructionPointer moves on by one and nothing else changes |
| Machine.Machine.Pop | src/ScriptEngine/Machine/MachineInstance.cs:2491-2494 | an empty operand stack throws; otherwise the top value is removed and returned |
| Machine.Machine.PopRawValue | src/ScriptEngine/Machine/MachineInstance.cs:2491-2494 | the popped value, through a variable reference to the cell's value |
| Machine.Machine.PopOperands | src/ScriptEngine/Machine/MachineInstance.cs:749-755 | right operand popped first, then left, both as raw values; an error when fewer than two |
| Machine.Machine.PopNumber | src/ScriptEngine/Machine/MachineInstance.cs:1166 | the popped raw value as a number, or the conversion error |
| Machine.Machine.PopInt | src/ScriptEngine/Machine/MachineInstance.cs:1605 | `(int)` of the popped number: its value inside the 32-bit range, OverflowException outside it |
| Machine.Machine.PopString | src/ScriptEngine/Machine/MachineInstance.cs:1682-1683 | the popped raw value as a string |
| Machine.Machine.PopBoolean | src/ScriptEngine/Machine/MachineInstance.cs:1096 | the popped raw value as a boolean, or the conversion error |
| Machine.Machine.PushAndNext | src/ScriptEngine/Machine/MachineInstance.cs:685-689 | one value is pushed and the InstructionPointer moves on |
| Machine.Machine.PushFrame | src/ScriptEngine/Machine/MachineInstance.cs:327-331 | a frame with the next fresh identity becomes current on top of the call stack |
| Machine.Machine.PopFrame | src/ScriptEngine/Machine/MachineInstance.cs:333-337 | the current frame is dropped and nothing else changes |
| Machine.Machine.CutOperands | src/ScriptEngine/Machine/MachineInstance.cs:454-455 | the operand stack is cut back to the recorded depth, or left when it is shallower |
| Machine.Machine.OpPushConst | src/ScriptEngine/Machine/MachineInstance.cs:673-677 | the constant at the argument is pushed; an argument outside the table is IndexOutOfRange with nothing changed |
| Machine.Machine.OpPushLoc | src/ScriptEngine/Machine/MachineInstance.cs:703-707 | a reference to the local's cell is pushed; a bad local index is IndexOutOfRange |
| Machine.Machine.OpLoadLoc | src/ScriptEngine/Machine/MachineInstance.cs:726-730 | the local's cell takes the popped raw value and nothing else changes; a bad index or an empty stack is an error |
| Machine.Machine.OpArithmetic | src/ScriptEngine/Machine/MachineInstance.cs:749-787 | Add/Sub/Mul/Div/Mod pop both operands and push the values' operation on their raw values, or raise its error |
| Machine.Machine.OpNeg | src/ScriptEngine/Machine/MachineInstance.cs:789-794 | the top operand is replaced by its negation, or the error |
| Machine.Machine.OpEquality | src/ScriptEngine/Machine/MachineInstance.cs:796-842 | Equals and NotEqual push the values' equality of the raw operands, or its negation |
| Machine.Machine.OpComparison | src/ScriptEngine/Machine/MachineInstance.cs:804-834 | Less, Greater, LessOrEqual and GreaterOrEqual push the outcome of the sign of CompareTo on the raw operands |
| Machine.Machine.OpNot | src/ScriptEngine/Machine/MachineInstance.cs:844-849 | the top operand is replaced by the negation of its boolean value |
| Machine.Machine.OpMakeRawValue | src/ScriptEngine/Machine/MachineInstance.cs:1348-1353 | the top operand is replaced by its raw value |
| Machine.Machine.OpMakeBool | src/ScriptEngine/Machine/MachineInstance.cs:1355-1360 | the top operand is replaced by its boolean value |
| Machine.Machine.OpInc | src/ScriptEngine/Machine/MachineInstance.cs:1164-1170 | the top operand is replaced by its number plus one |
| Machine.Machine.OpJmp | src/ScriptEngine/Machine/MachineInstance.cs:1089-1092 | the InstructionPointer becomes the argument |
| Machine.Machine.OpShortCircuit | src/ScriptEngine/Machine/MachineInstance.cs:851-877 | And (jumpOn false) and Or (jumpOn true): when the top operand is jumpOn the machine jumps and leaves it; otherwise it is popped and the next command follows |
| Machine.Machine.OpJmpFalse | src/ScriptEngine/Machine/MachineInstance.cs:1094-1106 | the condition is always popped; the machine jumps exactly when it is false |
| Machine.Machine.OpJmpCounter | src/ScriptEngine/Machine/MachineInstance.cs:1149-1162 | the counter is popped and compared with the limit on top of the frame's local stack, which stays; the next command follows while counter <= limit, otherwise the machine jumps |
| Machine.Machine.OpPushTmp | src/ScriptEngine/Machine/MachineInstance.cs:1362-1367 | the top operand moves to the frame's local stack |
| Machine.Machine.OpPopTmp | src/ScriptEngine/Machine/MachineInstance.cs:1369-1377 | the top of the frame's local stack is dropped, and pushed back on the operand stack when the argument is 0 |
| Machine.Machine.OpLineNum | src/ScriptEngine/Machine/MachineInstance.cs:1308-1319 | the frame's line number becomes the argument |
| Machine.Machine.OpBeginTry | src/ScriptEngine/Machine/MachineInstance.cs:1243-1254 | a record (handler address, current frame, operand-stack depth) is pushed and the InstructionPointer moves on |
| Machine.Machine.OpEndTry | src/ScriptEngine/Machine/MachineInstance.cs:1256-1266 | the top record is popped only when it belongs to the current frame and has the given address; the frame's last exception is always cleared |
| Machine.Machine.OpExitTry | src/ScriptEngine/Machine/MachineInstance.cs:1477-1483 | exactly `arg` records are popped; asking for more than there are is an empty-stack error |
| Machine.Machine.OpRaiseException | src/ScriptEngine/Machine/MachineInstance.cs:1268-1306 | a negative argument rethrows the frame's last exception, or an empty one; otherwise the popped raw value raises: an error template its description, parameters and inner exception, another ExceptionInfo its description with itself as the inner exception, anything else a RuntimeException with its text |
| Machine.Machine.OpReturn | src/ScriptEngine/Machine/MachineInstance.cs:1121-1139 | the return value is dropped when the frame discards it, every top handler record owned by the frame is removed (DropOwned), and the frame is popped; a reentrant frame instead gets the InstructionPointer -1 |
| Machine.Machine.SeekFrame | src/ScriptEngine/Machine/MachineInstance.cs:436-446 | the frame loop is UnwindTo: frames are popped until the current one owns the handler or is reentrant |
| Machine.Machine.ShouldRethrowException | src/ScriptEngine/Machine/MachineInstance.cs:419-458 | the new stacks and the rethrow answer are exactly Unwind of the old ones |
| Machine.Machine.EnterHandler | src/ScriptEngine/Machine/MachineInstance.cs:448-457 | the handler's frame resumes at the handler address with the exception stored, and the operand stack is cut back to the depth recorded at BeginTry |
| Machine.Machine.OpLeft | src/ScriptEngine/Machine/MachineInstance.cs:1603-1619 | the length is popped and cast to `int` (OverflowException outside the range), then the string; Left of them is pushed |
| Machine.Machine.OpRight | src/ScriptEngine/Machine/MachineInstance.cs:1621-1639 | as Left, with Right of the popped values |
| Machine.Machine.OpMidToEnd | src/ScriptEngine/Machine/MachineInstance.cs:1641-1678 | the start, then the string are popped; Builtins.Mid without a count is pushed, or Substring's ArgumentOutOfRange once both are popped |
| Machine.Machine.OpMidCount | src/ScriptEngine/Machine/MachineInstance.cs:1641-1678 | the length, the start and the string are popped; Builtins.Mid is pushed, or ArgumentOutOfRange |
| Machine.Machine.PushMid | src/ScriptEngine/Machine/MachineInstance.cs:1664-1677 | the Mid result is pushed and the InstructionPointer moves on, or ArgumentOutOfRange is raised |
| Machine.Machine.OpStrPos | src/ScriptEngine/Machine/MachineInstance.cs:1680-1688 | the needle, then the haystack are popped and StrPos of them is pushed |
| Machine.Machine.OpChrCode | src/ScriptEngine/Machine/MachineInstance.cs:1754-1778 | with argument 2 the position and then the string are popped, with 1 the string only; another argument is a stack error before any pop; ChrCode of them is pushed |
| Machine.Machine.OpStrLineCount | src/ScriptEngine/Machine/MachineInstance.cs:1814-1831 | the string is popped and its line count pushed |
| Machine.Machine.OpStrEntryCount | src/ScriptEngine/Machine/MachineInstance.cs:1833-1852 | the needle, then the string are popped and the count pushed; an empty needle in a non-empty string is reported as a run that does not end |
| Machine.Machine.ExecuteCommand | src/ScriptEngine/Machine/MachineInstance.cs:480-481 | one command runs through its handler; an operation code without a handler here stops the run and changes nothing |
| Machine.Machine.ExecuteStackCommand | src/ScriptEngine/Machine/MachineInstance.cs:529-662 | the commands on operands, locals and the local stack, each as its handler states |
| Machine.Machine.ExecuteValueCommand | src/ScriptEngine/Machine/MachineInstance.cs:529-662 | the arithmetic, comparison and logical commands, each as its handler states |
| Machine.Machine.ExecuteFlowCommand | src/ScriptEngine/Machine/MachineInstance.cs:529-662 | the jump, return and exception-handling commands, each as its handler states |
| Machine.Machine.ExecuteBuiltinCommand | src/ScriptEngine/Machine/MachineInstance.cs:529-662 | the built-in function commands, each as its handler states |
| Machine.Machine.MainCommandLoop | src/ScriptEngine/Machine/MachineInstance.cs:473-500 | commands run while the current InstructionPointer is inside the code; on completion the InstructionPointer is outside it; the reentrant entry and the caller's frames stay |
| Machine.Machine.ExecuteCode | src/ScriptEngine/Machine/MachineInstance.cs:391-417 | the loop restarts after each exception a handler record catches; a rethrown exception leaves either with the entry in place or with exactly the caller's frames |
| Machine.Machine.TakeCell | src/ScriptEngine/Machine/MachineInstance.cs:134-164 | an aliased local takes the caller's cell, any other a new cell appended to the heap |
| Machine.Machine.BindPassed | src/ScriptEngine/Machine/MachineInstance.cs:130-155 | the first loop: one local per passed argument, as BindLocals defines it |
| Machine.Machine.BindOmitted | src/ScriptEngine/Machine/MachineInstance.cs:156-161 | the second loop: the defaults of the parameters not passed |
| Machine.Machine.BindUnset | src/ScriptEngine/Machine/MachineInstance.cs:162-165 | the third loop: the remaining locals start Undefined |
| Machine.Machine.BindFrameLocals | src/ScriptEngine/Machine/MachineInstance.cs:120-169 | the three loops build exactly Allocate(BindLocals(...)), keeping every old cell |
| Machine.Machine.SetExecutionFrame | src/ScriptEngine/Machine/MachineInstance.cs:120-169 | the locals are bound as BindLocals and Allocate say and a fresh frame is pushed; a binding error leaves the call stack as it was |
| Machine.Machine.PopArguments | src/ScriptEngine/Machine/MachineInstance.cs:891-901 | the new operand stack and the result are exactly PoppedArguments of the old stack |
| Machine.Machine.OpCall | src/ScriptEngine/Machine/MachineInstance.cs:879-951 | CallFunc/CallProc of a script method: a bad index is IndexOutOfRange; otherwise the arguments are popped, the caller moves past the call and the bound frame is pushed, discarding its value for a procedure call |
| Machine.Machine.CallMethod | src/ScriptEngine/Machine/MachineInstance.cs:903-951 | the call of an existing method, in terms of PoppedArguments, BindLocals and Allocate |
| Machine.Machine.ExecuteMethod | src/ScriptEngine/Machine/MachineInstance.cs:84-118 | the reentrant entry: binding errors leave everything; a function returns exactly one value, a procedure none; the caller's frames are kept |
| Machine.Machine.PrepareContextCall | src/ScriptEngine/Machine/MachineInstance.cs:1034-1087 | the arguments and the object are popped and the argument array is PreparedArguments for the context's signature, or the error |
| MachineState.IntCast | src/ScriptEngine/Machine/MachineInstance.cs:1605 | `(int)` of a number: Ok exactly inside the 32-bit range, OverflowException outside it, conversion errors pass through |
| MachineState.UnwindTo | src/ScriptEngine/Machine/MachineInstance.cs:436-446 | the frame loop stops at the handler's frame or at a reentrant one, popping only what lies above |
| MachineState.UnwindToShape | src/ScriptEngine/Machine/MachineInstance.cs:436-446 | what UnwindTo pops is a run of top frames, none of them the target, none reentrant |
| MachineState.UnwindNeverExhausts | src/ScriptEngine/Machine/MachineInstance.cs:436-446 | a call stack whose bottom frame is reentrant is never exhausted by the search |
| MachineState.UnwindByStop | src/ScriptEngine/Machine/MachineInstance.cs:419-458 | Unwind in terms of where the frame search stopped |
| MachineState.NoHandlerRethrows | src/ScriptEngine/Machine/MachineInstance.cs:421-424 | with no handler record the exception is rethrown and nothing changes |
| MachineState.CaughtState | src/ScriptEngine/Machine/MachineInstance.cs:433-457 | a caught exception: the top record is gone, only non-reentrant frames not owning it were popped, the owner is current at the handler address with the exception stored, and the operand stack has the depth recorded at BeginTry |
| MachineState.ReentrantFrameRethrows | src/ScriptEngine/Machine/MachineInstance.cs:438-443 | a reentrant frame met first: the record is pushed back, the frames above and including that one are popped, and the exception goes on |
| MachineState.HandlerFrameReached | src/ScriptEngine/Machine/MachineInstance.cs:436-457 | when the handler's frame is on the stack with no reentrant frame above it, the exception is caught there |
| MachineState.DropOwned | src/ScriptEngine/Machine/MachineInstance.cs:1126-1129 | never longer than the record stack it starts from (its shape is DropOwnedShape) |
| MachineState.DropOwnedShape | src/ScriptEngine/Machine/MachineInstance.cs:1126-1129 | DropOwned removes a run of the frame's records from the top and nothing else, and the record left on top belongs to another frame |
| StackTrace.Count | src/ScriptEngine/Machine/Contexts/StackTraceCollectionContext.cs:39-42 | the number of frames given to the constructor |
| StackTrace.IsIndexed | src/ScriptEngine/Machine/Contexts/StackTraceCollectionContext.cs:49 | the collection always reports itself as indexed |
| StackTrace.GetIndexedValue | src/ScriptEngine/Machine/Contexts/StackTraceCollectionContext.cs:51-59 | the index is cast to `int` (Overflow outside the 32-bit range); a position inside the collection gives its frame, any other the out-of-range error |
| StackTrace.Enumerate | src/ScriptEngine/Machine/Contexts/StackTraceCollectionContext.cs:44-47 | the frames in order |
| StackTrace.FromFrames | src/ScriptEngine/Machine/Contexts/StackTraceCollectionContext.cs:24-32 | one item per frame, in order, carrying its source, method name and line |
| StackTrace.IndexedFrameIsFrame | src/ScriptEngine/Machine/Contexts/StackTraceCollectionContext.cs:24-59 | index i returns the item made from frame i for every i below Count; every other index is refused |
| Parser.Parser.constructor | src/OneScript.Language/SyntaxAnalysis/DefaultBslParser.cs:38-42 | the parser holds the lexer's lexemes and the language tables it was given; no lexeme read, no node, no error, empty block state, no pending annotation or exception |
| Parser.Parser.CurrentParent | src/OneScript.Language/SyntaxAnalysis/DefaultBslParser.cs:1369-1374 | the parent named by the top of the context stack is a node of the arena |
| Parser.Parser.NextLexem | src/OneScript.Language/SyntaxAnalysis/DefaultBslParser.cs:1307-1310 | the next lexeme becomes current (the end of text repeats for ever); nothing else changes |
| Parser.Parser.NextExpected | src/OneScript.Language/SyntaxAnalysis/DefaultBslParser.cs:1312-1324 | one NextLexem, and the answer is whether the new current token is the expected one |
| Parser.Parser.CreateChild | src/OneScript.Language/SyntaxAnalysis/DefaultBslParser.cs:1369-1374 | a new node on the given kind and lexeme is created and appended as the parent's last child; only the arena changes |
| Parser.Parser.SkipToNextStatement | src/OneScript.Language/SyntaxAnalysis/DefaultBslParser.cs:1326-1337 | the lexer moves to SkipTarget: the end of text, a statement start, or a token of the innermost terminator set; only the lexer position changes |
| Parser.Parser.AddError | src/OneScript.Language/SyntaxAnalysis/DefaultBslParser.cs:1339-1351 | the error, stamped with the position, is appended; the lexer moves to SkipTarget; inside TryParseNode an InternalParseException carrying the error is pending, outside none; the nodes and the block state are unchanged |
| Parser.Parser.AddErrorSkip | src/OneScript.Language/SyntaxAnalysis/DefaultBslParser.cs:1339-1351 | SkipTarget never moves backwards and never past the end of text |
| Parser.Parser.TryBegin | src/OneScript.Language/SyntaxAnalysis/DefaultBslParser.cs:1376-1393 | TryParseNode entry: the previous exception flag is returned and exceptions are enabled; nothing else changes |
| Parser.Parser.TryEnd | src/OneScript.Language/SyntaxAnalysis/DefaultBslParser.cs:1376-1393 | TryParseNode exit: the answer is true exactly when no exception was pending; the exception is caught and the previous flag restored |
| Parser.Parser.PushStructureToken | src/OneScript.Language/SyntaxAnalysis/DefaultBslParser.cs:1358-1361 | the terminator set is pushed on the terminator stack; nothing else changes |
| Parser.Parser.PopStructureToken | src/OneScript.Language/SyntaxAnalysis/DefaultBslParser.cs:1363-1367 | the top terminator set is popped; nothing else changes |
| Parser.Parser.MakeBinary | src/OneScript.Language/SyntaxAnalysis/DefaultBslParser.cs:1052-1068 | one new BinaryOperation node on the sign whose children are the two operands, in order; only the arena grows |
| Parser.Parser.BuildBinaryRight | src/OneScript.Language/SyntaxAnalysis/DefaultBslParser.cs:1052-1143 | at a level's sign: unless parsing stopped, the result is a new BinaryOperation node on that sign over the left operand and the operand read after it |
| Parser.Parser.BuildLogicalOr | src/OneScript.Language/SyntaxAnalysis/DefaultBslParser.cs:1052-1068 | unless parsing stopped, either no Or follows the first And-level operand and it is the result, or the result is one BinaryOperation node on an Or over the two operands; older nodes are untouched |
| Parser.Parser.BuildLogicalAnd | src/OneScript.Language/SyntaxAnalysis/DefaultBslParser.cs:1071-1086 | the same, one level down: the operands are Not-level and the sign And |
| Parser.Parser.BuildLogicalNot | src/OneScript.Language/SyntaxAnalysis/DefaultBslParser.cs:1089-1101 | at Not the result is a new UnaryOperation node on it over one comparison-level operand; otherwise the comparison operand itself is the result |
| Parser.Parser.BuildNegation | src/OneScript.Language/SyntaxAnalysis/DefaultBslParser.cs:1089-1101 | at Not, unless parsing stopped, the result is the UnaryOperation node on the Not over the operand that follows |
| Parser.Parser.BuildLogicalComparison | src/OneScript.Language/SyntaxAnalysis/DefaultBslParser.cs:1104-1125 | one addition-level operand, or one BinaryOperation node on a comparison sign over two of them |
| Parser.Parser.BuildAddition | src/OneScript.Language/SyntaxAnalysis/DefaultBslParser.cs:1128-1143 | one product-level operand, or one BinaryOperation node on + or - over two of them |
| Parser.Parser.BuildMultiplication | src/OneScript.Language/SyntaxAnalysis/DefaultBslParser.cs:1146-1162 | as written: where a Multiply or Modulo sign is met (never Division) a BinaryOperation node on it is made last in the arena, and the result is NOT that node |
| Parser.Parser.BuildUnattachedProduct | src/OneScript.Language/SyntaxAnalysis/DefaultBslParser.cs:1150-1159 | the BinaryOperation node on the product sign over the left operand and the next unary-level operand, which is made and then dropped |
| Parser.Parser.BuildMultiplicationCorrected | src/OneScript.Language/SyntaxAnalysis/DefaultBslParser.cs:1146-1162 | as evidently intended: one unary-level operand, or one BinaryOperation node on *, / or % over two of them, which is the result |
| Parser.Parser.BuildUnaryArifmetics | src/OneScript.Language/SyntaxAnalysis/DefaultBslParser.cs:1165-1181 | at + or - the result is a new UnaryOperation node on the sign over one operand; otherwise the operand itself |
| Parser.Parser.BuildParenthesis | src/OneScript.Language/SyntaxAnalysis/DefaultBslParser.cs:1184-1201 | after ( the inner expression is the result; the lexeme after it is consumed, and when it is not ) a TokenExpected error for ) is added at its position |
| Parser.Parser.TerminalNode | src/OneScript.Language/SyntaxAnalysis/DefaultBslParser.cs:1205-1232 | a literal gives a Constant node on it and is consumed without error; a user symbol starts with an Identifier node on it; anything else but New and ? gives no node and the error ExpressionSyntax |
| Parser.Parser.BuildGlobalCall | src/OneScript.Language/SyntaxAnalysis/DefaultBslParser.cs:876-883 | an Identifier node on the name opens the result; a name followed by none of (, [ and . is that node alone, consumed without error, and is writable |
| Parser.Parser.BuildCall | src/OneScript.Language/SyntaxAnalysis/DefaultBslParser.cs:885-895 | without ( the target is returned and nothing changes; at ( the result is a call node over the target and a CallArgumentList node on the parenthesis |
| Parser.Parser.BuildCallParameters | src/OneScript.Language/SyntaxAnalysis/DefaultBslParser.cs:897-925 | the call node gets a CallArgumentList node as its new last child; unless parsing stopped the ) has been consumed; () itself gives an empty list, two lexemes read and no error |
| Parser.Parser.BuildArguments | src/OneScript.Language/SyntaxAnalysis/DefaultBslParser.cs:905-921 | at ) nothing is read and there are no arguments; otherwise, unless parsing stopped, the arguments end at a current ) |
| Parser.Parser.BuildCallArgument | src/OneScript.Language/SyntaxAnalysis/DefaultBslParser.cs:927-944 | at ) nothing changes; a comma gives an empty CallArgument node, plus one more when ) follows; any other lexeme gives a CallArgument node with one expression, plus an empty one for a comma directly before ) |
| Parser.Parser.BuildEmptyArgument | src/OneScript.Language/SyntaxAnalysis/DefaultBslParser.cs:929-934 | on a comma: an empty CallArgument node is appended and the comma consumed; one more empty argument when ) follows; no error |
| Parser.Parser.BuildExpressionArgument | src/OneScript.Language/SyntaxAnalysis/DefaultBslParser.cs:935-943 | a CallArgument node holding one expression is appended; a comma after it is consumed, and a comma directly before ) adds one more empty argument |
| Parser.Parser.BuildLastDefaultArg | src/OneScript.Language/SyntaxAnalysis/DefaultBslParser.cs:947-954 | one lexeme read; when it is ) an empty CallArgument node on it joins the list, otherwise nothing changes; no error |
| Parser.Parser.BuildDereference | src/OneScript.Language/SyntaxAnalysis/DefaultBslParser.cs:956-989 | neither [ nor . leaves everything unchanged; a dot without a name after it is a DereferenceOperation node over the target and IdentifierExpected; a dot and a name give a DereferenceOperation node over the target and the member |
| Parser.Parser.BuildMember | src/OneScript.Language/SyntaxAnalysis/DefaultBslParser.cs:972-986 | the member (a call when ( follows, a plain name otherwise) becomes one more child of the dot node |
| Parser.Parser.BuildIndexerAccess | src/OneScript.Language/SyntaxAnalysis/DefaultBslParser.cs:991-1010 | without [ nothing changes; at [ an IndexAccess node over the target; an empty [] gives ExpressionExpected then ExpressionSyntax and no result |
| Parser.Parser.BuildExpression | src/OneScript.Language/SyntaxAnalysis/DefaultBslParser.cs:1014-1025 | at the stop token there is no node and the error ExpressionExpected (thrown inside TryParseNode); otherwise the expression is the parent's new last child |
| Parser.Parser.BuildExpressionUpTo | src/OneScript.Language/SyntaxAnalysis/DefaultBslParser.cs:1027-1036 | BuildExpression, and the stop token is consumed when the expression ends on it |
| Parser.Parser.BuildOptionalExpression | src/OneScript.Language/SyntaxAnalysis/DefaultBslParser.cs:1038-1047 | at the stop token nothing changes and there is no error; otherwise the expression is the parent's new last child |
| Parser.Parser.BuildQuestionOperator | src/OneScript.Language/SyntaxAnalysis/DefaultBslParser.cs:1234-1261 | a TernaryOperator node on the ?; when the operands parsed it has exactly three children, otherwise there is no result |
| Parser.Parser.TryTernaryOperands | src/OneScript.Language/SyntaxAnalysis/DefaultBslParser.cs:1243-1254 | under TryParseNode, no exception escapes; on success three children are added to the ternary node |
| Parser.Parser.BuildTernaryOperand | src/OneScript.Language/SyntaxAnalysis/DefaultBslParser.cs:1245-1252 | one operand is added to the ternary node unless parsing stopped |
| Parser.Parser.BuildNewObjectCreation | src/OneScript.Language/SyntaxAnalysis/DefaultBslParser.cs:1263-1283 | a NewObject node on New; after it neither (, a name nor ExceptionInfo gives IdentifierExpected and no result; otherwise the node is the result |
| Parser.Parser.NewObjectDynamicConstructor | src/OneScript.Language/SyntaxAnalysis/DefaultBslParser.cs:1285-1292 | New() with nothing inside gives ExpressionExpected; a constructor call with no argument always ends on ExpressionExpected |
| Parser.Parser.NewObjectStaticConstructor | src/OneScript.Language/SyntaxAnalysis/DefaultBslParser.cs:1294-1303 | an Identifier node on the type name is the NewObject node's next child; without ( after it the name is consumed and nothing more is added |
| Parser.Parser.PushContext | src/OneScript.Language/SyntaxAnalysis/DefaultBslParser.cs:111 | the node is pushed on the context stack and becomes the current parent; nothing else changes |
| Parser.Parser.PopContext | src/OneScript.Language/SyntaxAnalysis/DefaultBslParser.cs:113 | the context stack is popped; nothing else changes |
| Parser.Parser.BuildCodeBatch | src/OneScript.Language/SyntaxAnalysis/DefaultBslParser.cs:551-593 | a batch ends at one of its terminators or an end-of-block token; a batch starting on a terminator changes nothing; only the current parent's subtree changes |
| Parser.Parser.BuildBatchTurn | src/OneScript.Language/SyntaxAnalysis/DefaultBslParser.cs:560-590 | a turn that does not end the batch consumes at least one lexeme; a turn that ends it stops on a terminator or an end-of-block token |
| Parser.Parser.BuildComplexStructureStatement | src/OneScript.Language/SyntaxAnalysis/DefaultBslParser.cs:595-635 | Try, RaiseException, Execute, AddHandler and RemoveHandler change nothing in this version; a keyword that starts no statement adds no node and the TokenExpected error for the terminators |
| Parser.Parser.BuildBatchWithContext | src/OneScript.Language/SyntaxAnalysis/DefaultBslParser.cs:663-675 | a new CodeBatch node is the context's last child, and the batch ends on one of the stop tokens or an end-of-block token |
| Parser.Parser.BuildIfStatement | src/OneScript.Language/SyntaxAnalysis/DefaultBslParser.cs:637-661 | a Condition node on If is the parent's new last child; the statement ends on a consumed EndIf (or end-of-block token) where a BlockEnd closes the condition |
| Parser.Parser.BuildElseIfs | src/OneScript.Language/SyntaxAnalysis/DefaultBslParser.cs:645-651 | after the ElseIf branches the current token is Else, EndIf or an end-of-block token |
| Parser.Parser.LeaveLoopAsWritten | src/OneScript.Language/SyntaxAnalysis/DefaultBslParser.cs:686-693 | as written: after a loop the in-loop flag is false, even inside an enclosing loop |
| Parser.Parser.LeaveLoop | src/OneScript.Language/SyntaxAnalysis/DefaultBslParser.cs:686-693 | as evidently intended: after a loop the in-loop flag is what it was before the loop |
| Parser.Parser.FlagAfterLoop | src/OneScript.Language/SyntaxAnalysis/DefaultBslParser.cs:686-717 | the in-loop flag after a loop: false as written; the flag before the loop when corrected |
| Parser.Parser.BuildWhileStatement | src/OneScript.Language/SyntaxAnalysis/DefaultBslParser.cs:677-695 | a WhileLoop node is the parent's new last child and the in-loop flag ends as FlagAfterLoop; as written the EndLoop that closes it is left current, corrected it is consumed |
| Parser.Parser.BuildWhileBody | src/OneScript.Language/SyntaxAnalysis/DefaultBslParser.cs:688-693 | as written: the body is closed by a BlockEnd on EndLoop (or an end-of-block token), which stays the current lexeme |
| Parser.Parser.BuildWhileBodyCorrected | src/OneScript.Language/SyntaxAnalysis/DefaultBslParser.cs:688-693 | as evidently intended: the body is closed by a BlockEnd on EndLoop (or an end-of-block token), which is consumed |
| Parser.Parser.BuildLoopBody | src/OneScript.Language/SyntaxAnalysis/DefaultBslParser.cs:738-752 | a CodeBatch node then a BlockEnd: the two new children of the loop; the closing EndLoop (or end-of-block token) is consumed |
| Parser.Parser.BuildForStatement | src/OneScript.Language/SyntaxAnalysis/DefaultBslParser.cs:697-719 | a ForEachLoop node when Each follows For, a ForLoop node otherwise, is the parent's new last child; the in-loop flag ends as FlagAfterLoop |
| Parser.Parser.BuildCountableForStatement | src/OneScript.Language/SyntaxAnalysis/DefaultBslParser.cs:721-756 | a counter that is no name is IdentifierExpected and a missing = TokenExpected, and the loop still gets a child; with both, four children (initializer, limit, body, BlockEnd) are added |
| Parser.Parser.BuildForInitializer | src/OneScript.Language/SyntaxAnalysis/DefaultBslParser.cs:729-740 | a ForInitializer node over an Identifier node on the counter is the loop's new last child |
| Parser.Parser.BuildForLimit | src/OneScript.Language/SyntaxAnalysis/DefaultBslParser.cs:741-745 | a ForLimit node on To is the loop's new last child |
| Parser.Parser.BuildForEachStatement | src/OneScript.Language/SyntaxAnalysis/DefaultBslParser.cs:758-789 | a loop variable that is no name is IdentifierExpected and the loop still gets a child; otherwise a ForEachVariable node on the name is its first new child |
| Parser.Parser.BuildForEachCollection | src/OneScript.Language/SyntaxAnalysis/DefaultBslParser.cs:772-783 | when the collection parsed, a ForEachCollection node on In is the loop's new last child; when TryParseNode caught an error, no child is added |
| Parser.Parser.BuildJumpStatement | src/OneScript.Language/SyntaxAnalysis/DefaultBslParser.cs:791-811 | outside a loop the error (BreakOutsideOfLoop or ContinueOutsideOfLoop) is added and the lexer skips; in both cases a node on the lexeme reached is the parent's new last child and is consumed |
| Parser.Parser.BuildReturnStatement | src/OneScript.Language/SyntaxAnalysis/DefaultBslParser.cs:813-844 | a ReturnStatement node on Return; in a function an empty return is FuncEmptyReturnValue and any other has one value; in a procedure a value is ProcReturnsAValue; outside a method ReturnOutsideOfMethod |
| Parser.Parser.BuildSimpleStatement | src/OneScript.Language/SyntaxAnalysis/DefaultBslParser.cs:846-850 | the statements-defined flag is set and no exception escapes; a lone name becomes an Identifier node appended to the batch without error |
| Parser.Parser.BuildAssignment | src/OneScript.Language/SyntaxAnalysis/DefaultBslParser.cs:852-874 | a lone name followed by none of (, [, . and = becomes an Identifier node appended to the batch and consumed without error |
| Parser.Parser.BuildAssignmentRest | src/OneScript.Language/SyntaxAnalysis/DefaultBslParser.cs:856-873 | without = the call joins the batch; = after a target that cannot be written is ExpressionSyntax and adds no node; otherwise an Assignment node on = over the target and the value |
| Parser.Parser.ApplyAnnotations | src/OneScript.Language/SyntaxAnalysis/DefaultBslParser.cs:239-246 | the pending annotations become the node's last children, in the order read, and none is pending any more; nothing else changes |
| Parser.Parser.BuildAnnotations | src/OneScript.Language/SyntaxAnalysis/DefaultBslParser.cs:473-486 | no annotation lexeme leaves everything unchanged; otherwise at least one new pending Annotation node on the first annotation lexeme, and an annotation lexeme is no longer current |
| Parser.Parser.BuildAnnotationParameters | src/OneScript.Language/SyntaxAnalysis/DefaultBslParser.cs:488-508 | every child added to the annotation is an AnnotationParameter node |
| Parser.Parser.BuildAnnotationParameter | src/OneScript.Language/SyntaxAnalysis/DefaultBslParser.cs:510-531 | an AnnotationParameter node on the current lexeme is the annotation's new last child; success consumes input; a lexeme that is neither a name nor a literal is LiteralExpected |
| Parser.Parser.BuildAnnotationParamValue | src/OneScript.Language/SyntaxAnalysis/DefaultBslParser.cs:533-547 | success exactly when the lexeme is a literal, which then becomes an AnnotationParameterValue node and is consumed; otherwise LiteralExpected and no node |
| Parser.Parser.BuildVariableSection | src/OneScript.Language/SyntaxAnalysis/DefaultBslParser.cs:131-167 | neither Var nor an annotation leaves everything unchanged; otherwise a VariablesSection node is made and ends on neither Var nor an annotation; a section that starts on Var is always attached |
| Parser.Parser.BuildVariableDefinition | src/OneScript.Language/SyntaxAnalysis/DefaultBslParser.cs:169-237 | a VariableDefinition node on Var, with the pending annotations as its first children, is the parent's next child; the annotations are consumed |
| Parser.Parser.BuildExportFlag | src/OneScript.Language/SyntaxAnalysis/DefaultBslParser.cs:192-205 | inside a method: ExportedLocalVar naming the variable and a skip; in every case an ExportFlag node joins the variable and its lexeme is consumed |
| Parser.Parser.BuildMethodsSection | src/OneScript.Language/SyntaxAnalysis/DefaultBslParser.cs:252-291 | without an annotation, Procedure or Function nothing changes; otherwise a MethodsSection node is made, attached when a method starts it, and the methods end at a lexeme that starts no method |
| Parser.Parser.BuildMethod | src/OneScript.Language/SyntaxAnalysis/DefaultBslParser.cs:293-319 | a Method node, with the pending annotations then a MethodSignature node as its first children, is the parent's new last child; afterwards the method, function and statements flags are cleared |
| Parser.Parser.BuildMethodBody | src/OneScript.Language/SyntaxAnalysis/DefaultBslParser.cs:321-336 | a CodeBatch node is the method's next child, closed by a consumed EndFunction in a function and EndProcedure in a procedure (or an end-of-block token) |
| Parser.Parser.BuildMethodSignature | src/OneScript.Language/SyntaxAnalysis/DefaultBslParser.cs:338-360 | a MethodSignature node over a Function or Procedure node on the keyword is the method's new last child; the function-scope flag says whether it is a function |
| Parser.Parser.BuildMethodParameters | src/OneScript.Language/SyntaxAnalysis/DefaultBslParser.cs:362-409 | without ( after the name, TokenExpected and no node; with it, a MethodParameters node on ( whose children are all MethodParameter nodes |
| Parser.Parser.BuildDefaultParameterValue | src/OneScript.Language/SyntaxAnalysis/DefaultBslParser.cs:411-449 | success exactly when DefaultValue accepts the optional sign and the literal: then a ParameterDefaultValue node on the rewritten value, consumed without error; otherwise its error and no node |
| Parser.Parser.BuildModuleBody | src/OneScript.Language/SyntaxAnalysis/DefaultBslParser.cs:453-470 | when the lexer finds no more text nothing changes; otherwise a ModuleBody node over a CodeBatch is the parent's new last child and the body ends at the end of text or an end-of-block token |
| Parser.Parser.ParseModuleSections | src/OneScript.Language/SyntaxAnalysis/DefaultBslParser.cs:117-127 | the sections only grow the current parent's subtree; the context and terminator stacks, the exception flag and the methods flag are as before |
| Parser.Parser.ParseDirectives | src/OneScript.Language/SyntaxAnalysis/DefaultBslParser.cs:75-83 | nothing changes; because the builder's directive hook is a no-op the loop would repeat for ever exactly when a directive other than the end of text is current (reported as hung) |
| Parser.Parser.ParseStatefulModule | src/OneScript.Language/SyntaxAnalysis/DefaultBslParser.cs:56-73 | the result is a new Module node on the first lexeme; a first lexeme that is a directive leaves that node alone and the parse hung |
| Parser.Parser.ParseCodeBatch | src/OneScript.Language/SyntaxAnalysis/DefaultBslParser.cs:85-101 | a new Module node on the first lexeme; when more text follows, its child is a ModuleBody node over a CodeBatch |
| Parser.Parser.ParseExpression | src/OneScript.Language/SyntaxAnalysis/DefaultBslParser.cs:103-109 | a new Module node on the first lexeme; empty text gives ExpressionExpected and no child, otherwise exactly one child |
| DefaultAst.MakeNonTerminal | src/OneScript.Language/SyntaxAnalysis/DefaultAstBuilder.cs:32-43 | a childless non-terminal whose class is AnnotationNode exactly for an Annotation, AnnotationParameterNode exactly for an AnnotationParameter, and the plain class otherwise |
| DefaultAst.NewNode | src/OneScript.Language/SyntaxAnalysis/DefaultAstBuilder.cs:16-30 | a terminal node (with its kind and lexeme) exactly for the terminal kinds; for every other kind the non-terminal MakeNonTerminal gives |
| DefaultAst.PlainNonTerminalsForgetKind | src/OneScript.Language/SyntaxAnalysis/DefaultAstBuilder.cs:16-43 | two plain non-terminals are the same node whatever their kinds and lexemes: the default builder keeps neither |
| DefaultAst.AppendChild | src/OneScript.Language/SyntaxAnalysis/DefaultAstBuilder.cs:45-50 | appending a child keeps the arena's size and the parent non-terminal |
| DefaultAst.AppendChildInOrder | src/OneScript.Language/SyntaxAnalysis/DefaultAstBuilder.cs:45-50 | two children appended in turn follow the parent's old children in call order; the class and every other node are unchanged |
| DefaultAst.DefaultAstBuilder.constructor | src/OneScript.Language/SyntaxAnalysis/DefaultAstBuilder.cs:14 | a builder with no nodes |
| DefaultAst.DefaultAstBuilder.CreateNode | src/OneScript.Language/SyntaxAnalysis/DefaultAstBuilder.cs:16-30 | the node NewNode gives is appended and its index returned |
| DefaultAst.DefaultAstBuilder.AddChild | src/OneScript.Language/SyntaxAnalysis/DefaultAstBuilder.cs:45-50 | a terminal parent cannot be cast to a non-terminal: InvalidCast and nothing changes; a non-terminal parent gets the child appended |
| DefaultAst.DefaultAstBuilder.PreprocessorDirective | src/OneScript.Language/SyntaxAnalysis/DefaultAstBuilder.cs:56-58 | the directive hook changes nothing: the last extracted lexeme is the one passed in |
| SyntaxTree.WithChildTouchesParentOnly | src/OneScript.Language/SyntaxAnalysis/ImportDirectivesHandler.cs:65-66 | adding a child changes only the parent: its kind and lexeme stay, its children gain the child at the end |
| SyntaxTree.ChildrenInCallOrder | src/OneScript.Language/SyntaxAnalysis/ImportDirectivesHandler.cs:65-66 | two children added in turn are the parent's last two, in call order |
| SyntaxTree.TreeBuilder.constructor | src/OneScript.Language/SyntaxAnalysis/ImportDirectivesHandler.cs:48 | a node builder with no nodes |
| SyntaxTree.TreeBuilder.CreateNode | src/OneScript.Language/SyntaxAnalysis/ImportDirectivesHandler.cs:54 | a childless node on the kind and lexeme is appended and its index returned |
| SyntaxTree.TreeBuilder.AddChild | src/OneScript.Language/SyntaxAnalysis/ImportDirectivesHandler.cs:65-66 | the child is appended to the parent's children; nothing else changes |
| ImportDirectives.ImportDirectivesHandler.constructor | src/OneScript.Language/SyntaxAnalysis/ImportDirectivesHandler.cs:19-26 | a disabled handler folding case with the given function (its own word lexer is not modelled) |
| ImportDirectives.ImportDirectivesHandler.OnModuleEnter | src/OneScript.Language/SyntaxAnalysis/ImportDirectivesHandler.cs:28-31 | the handler is enabled |
| ImportDirectives.ImportDirectivesHandler.OnModuleLeave | src/OneScript.Language/SyntaxAnalysis/ImportDirectivesHandler.cs:33-36 | the handler is disabled |
| ImportDirectives.ImportDirectivesHandler.HandleDirective | src/OneScript.Language/SyntaxAnalysis/ImportDirectivesHandler.cs:38-78 | disabled: DirectiveNotSupported and nothing changes; another directive: declined, nothing changes; no name: LibraryNameExpected with the node made and unattached; a name: Preprocessor node over it under the context node, then UnexpectedOperation if the line goes on, else handled with the next lexeme current |
| ImportDirectives.HandledDirectiveShape | src/OneScript.Language/SyntaxAnalysis/ImportDirectivesHandler.cs:54-66 | after a handled directive the context node's new last child is the Preprocessor node whose only child is the name; every other earlier node is unchanged |
| ImportDirectives.BothSpellingsSupported | src/OneScript.Language/SyntaxAnalysis/ImportDirectivesHandler.cs:80-84 | a directive folding to either spelling is supported, and both spellings are |
| Preprocessor.WithoutFirst | src/OneScript.Language/SyntaxAnalysis/PreprocessorHandlers.cs:25-28 | an absent handler leaves the list as it is; a present one shortens it by exactly one |
| Preprocessor.WithoutFirstCounts | src/OneScript.Language/SyntaxAnalysis/PreprocessorHandlers.cs:25-28 | removal takes away exactly one occurrence: the multiset loses one copy of the handler |
| Preprocessor.WithoutFirstSplits | src/OneScript.Language/SyntaxAnalysis/PreprocessorHandlers.cs:25-28 | it is the FIRST occurrence that goes: the list with position k cut out, k being the first index of the handler |
| Preprocessor.RemoveAfterAdd | src/OneScript.Language/SyntaxAnalysis/PreprocessorHandlers.cs:20-28 | removing a handler just added, and not there before, gives back the old list |
| Preprocessor.PreprocessorHandlers.constructor | src/OneScript.Language/SyntaxAnalysis/PreprocessorHandlers.cs:18 | no handlers |
| Preprocessor.PreprocessorHandlers.Add | src/OneScript.Language/SyntaxAnalysis/PreprocessorHandlers.cs:20-23 | the handler is appended |
| Preprocessor.PreprocessorHandlers.Remove | src/OneScript.Language/SyntaxAnalysis/PreprocessorHandlers.cs:25-28 | the handlers are WithoutFirst of the old ones |
| Preprocessor.PreprocessorHandlers.Get | src/OneScript.Language/SyntaxAnalysis/PreprocessorHandlers.cs:30-38 | the first handler of the type, with none before it; no answer exactly when no handler is of the type |
| Preprocessor.PreprocessorHandlers.Broadcast | src/OneScript.Language/SyntaxAnalysis/PreprocessorHandlers.cs:40-54 | every handler gets the event once, in list order |
| Preprocessor.PreprocessorHandlers.OnModuleEnter | src/OneScript.Language/SyntaxAnalysis/PreprocessorHandlers.cs:40-46 | every handler is sent ModuleEnter once, in list order |
| Preprocessor.PreprocessorHandlers.OnModuleLeave | src/OneScript.Language/SyntaxAnalysis/PreprocessorHandlers.cs:48-54 | every handler is sent ModuleLeave once, in list order |
| Preprocessor.PreprocessorHandlers.HandleDirective | src/OneScript.Language/SyntaxAnalysis/PreprocessorHandlers.cs:56-59 | handled exactly when some handler accepts; the handlers asked are a prefix of the list, none but the last accepted, and all were asked when none did |
| BlocksWriter.Inherit | src/OneScript.Native/Compiler/StatementBlocksWriter.cs:17-26 | each of the return, break and continue labels is the new block's own when it has one, and the current block's otherwise |
| BlocksWriter.InheritKeepsKnownLabels | src/OneScript.Native/Compiler/StatementBlocksWriter.cs:17-26 | a label the current block knows stays known, a complete set of labels stays complete, and inheriting twice from the same block changes nothing more |
| BlocksWriter.InheritedLoopLabels | src/OneScript.Native/Compiler/StatementBlocksWriter.cs:17-26 | a block with no loop labels, entered inside a loop's block, jumps to that loop's break and continue labels |
| BlocksWriter.LeaveAfterEnter | src/OneScript.Native/Compiler/StatementBlocksWriter.cs:17-32 | enter a block and add statements: the blocks below are unchanged and the new top block holds the inherited labels and exactly those statements |
| BlocksWriter.AddedAll | src/OneScript.Native/Compiler/StatementBlocksWriter.cs:32 | adding statements keeps the stack's height |
| BlocksWriter.AddedAllTop | src/OneScript.Native/Compiler/StatementBlocksWriter.cs:32 | adding statements changes only the top block, whose statements gain them in order |
| BlocksWriter.StatementBlocksWriter.constructor | src/OneScript.Native/Compiler/StatementBlocksWriter.cs:15 | an empty stack of blocks |
| BlocksWriter.StatementBlocksWriter.GetCurrentBlock | src/OneScript.Native/Compiler/StatementBlocksWriter.cs:30 | the top block; an empty stack is an error |
| BlocksWriter.StatementBlocksWriter.EnterBlock | src/OneScript.Native/Compiler/StatementBlocksWriter.cs:17-26 | on an empty stack the error of the Peek and nothing changes; otherwise a block with the labels Inherit gives is pushed |
| BlocksWriter.StatementBlocksWriter.LeaveBlock | src/OneScript.Native/Compiler/StatementBlocksWriter.cs:28 | the top block is popped and returned; an empty stack is an error and nothing changes |
| BlocksWriter.StatementBlocksWriter.Add | src/OneScript.Native/Compiler/StatementBlocksWriter.cs:32 | the statement is appended to the top block; an empty stack is an error and nothing changes |
| Events.WithHandler | src/ScriptEngine.HostedScript/DefaultEventProcessor.cs:31-43 | after HandlersList.Add the handler is subscribed; the list only grows, by one exactly when no handler of that target and method name (case-insensitively) was there |
| Events.WithoutHandler | src/ScriptEngine.HostedScript/DefaultEventProcessor.cs:45-48 | RemoveAll: no handler of the target and method name is left, and the list does not grow |
| Events.WithoutAbsentHandler | src/ScriptEngine.HostedScript/DefaultEventProcessor.cs:45-48 | removing a handler that is not subscribed leaves the list as it is |
| Events.WithoutHandlerKeeps | src/ScriptEngine.HostedScript/DefaultEventProcessor.cs:45-48 | exactly the handlers that do not match the target and name survive removal |
| Events.AddTwice | src/ScriptEngine.HostedScript/DefaultEventProcessor.cs:31-43 | adding the same target and method name again, in any case, changes nothing |
| Events.AddKeepsNoTwice | src/ScriptEngine.HostedScript/DefaultEventProcessor.cs:31-43 | adding keeps every target and method name subscribed at most once |
| Events.RemoveAfterAdd | src/ScriptEngine.HostedScript/DefaultEventProcessor.cs:31-48 | removing what was just added gives the same list as removing it without the add |
| Events.Adding | src/ScriptEngine.HostedScript/DefaultEventProcessor.cs:63-84 | after AddHandler the source and the event have an entry in the registration table |
| Events.Removing | src/ScriptEngine.HostedScript/DefaultEventProcessor.cs:86-103 | RemoveHandler never adds or drops an event source |
| Events.AddingIsolated | src/ScriptEngine.HostedScript/DefaultEventProcessor.cs:63-84 | adding changes the handlers of that source and event only, as WithHandler does; every other pair keeps its handlers |
| Events.RemovingIsolated | src/ScriptEngine.HostedScript/DefaultEventProcessor.cs:86-103 | removing changes the handlers of that source and event only, as WithoutHandler does; every other pair keeps its handlers |
| Events.AddingTwice | src/ScriptEngine.HostedScript/DefaultEventProcessor.cs:63-84 | registering the same handler twice (method names equal up to case) leaves the handlers as one registration did |
| Events.DefaultEventProcessor.constructor | src/ScriptEngine.HostedScript/DefaultEventProcessor.cs:61 | no registrations |
| Events.DefaultEventProcessor.AddHandler | src/ScriptEngine.HostedScript/DefaultEventProcessor.cs:63-84 | a target that is not a script object raises InvalidArgumentType(handlerTarget) and nothing changes; otherwise the registrations are Adding of the old ones |
| Events.DefaultEventProcessor.RemoveHandler | src/ScriptEngine.HostedScript/DefaultEventProcessor.cs:86-103 | a target that is not a script object raises InvalidArgumentType(handlerTarget) and nothing changes; otherwise the registrations are Removing of the old ones |
| Events.DefaultEventProcessor.HandleEvent | src/ScriptEngine.HostedScript/DefaultEventProcessor.cs:105-118 | one call with the event arguments per handler of the source and event, in registration order; none for an unknown source or event |
| Enumerations.IdOfName | src/ScriptEngine/Machine/Contexts/EnumerationContext.cs:58-65 | the number found is an entry the name denotes by its name or its alias, or -1 |
| Enumerations.IdOfNameFirst | src/ScriptEngine/Machine/Contexts/EnumerationContext.cs:58-65 | no entry before the number found (none at all for -1) is denoted by the name |
| Enumerations.IdOfNameAppend | src/ScriptEngine/Machine/Contexts/EnumerationContext.cs:29-35 | after registering one more entry a lookup finds what it found before, else the new entry when the name denotes it, else nothing |
| Enumerations.IndexOf | src/ScriptEngine/Machine/Contexts/EnumerationContext.cs:48-51 | List.IndexOf: a position holding the value, or -1 exactly when the value is absent |
| Enumerations.IndexOfFirst | src/ScriptEngine/Machine/Contexts/EnumerationContext.cs:48-51 | the value does not occur before the position found |
| Enumerations.Enumeration.constructor | src/ScriptEngine/Machine/Contexts/EnumerationContext.cs:24-27 | an enumeration with no values and no names, comparing names with the given key |
| Enumerations.Enumeration.AddValue | src/ScriptEngine/Machine/Contexts/EnumerationContext.cs:29-35 | the value is appended, and its name and alias registered under the next number |
| Enumerations.Enumeration.GetPropertyNumber | src/ScriptEngine/Machine/Contexts/EnumerationContext.cs:58-65 | the first value whose name or alias the name denotes; when none does, NotRegistered (the base context's lookup) |
| Enumerations.Enumeration.Item | src/ScriptEngine/Machine/Contexts/EnumerationContext.cs:39-46 | the value at the number GetPropertyNumber finds, and an error exactly when it finds none |
| Enumerations.Enumeration.IndexOfValue | src/ScriptEngine/Machine/Contexts/EnumerationContext.cs:48-51 | -1 exactly when the value was never added; otherwise the first position it was added at |
| Enumerations.Enumeration.Count | src/ScriptEngine/Machine/Contexts/EnumerationContext.cs:93-96 | the number of values added |
| Enumerations.Enumeration.IsPropReadable | src/ScriptEngine/Machine/Contexts/EnumerationContext.cs:67-70 | every property number is readable |
| Enumerations.Enumeration.GetPropValue | src/ScriptEngine/Machine/Contexts/EnumerationContext.cs:72-75 | a value of the enumeration whose first position is at or before that number |
| Enumerations.Enumeration.GetPropName | src/ScriptEngine/Machine/Contexts/EnumerationContext.cs:77-80 | the string form of the value at that number |
| Enumerations.Enumeration.Enumerate | src/ScriptEngine/Machine/Contexts/EnumerationContext.cs:98-104 | as many items as Count, the i-th being GetPropValue(i) |
| Enumerations.AddedValueIsFound | src/ScriptEngine/Machine/Contexts/EnumerationContext.cs:29-65 | a value added with a new name and alias is found under both at its number, and every name found before is found at the same number |
| Enumerations.IndexOfAddedValue | src/ScriptEngine/Machine/Contexts/EnumerationContext.cs:48-51 | with every value added once, IndexOf gives back the position each was added at |
| CompilerService.CompilerServiceBase.constructor | src/ScriptEngine/CompilerServiceBase.cs:24-27 | no scope of its own, the outer context's scopes, no preprocessor value and no request to the context |
| CompilerService.CompilerServiceBase.RegisterScopeIfNeeded | src/ScriptEngine/CompilerServiceBase.cs:105-112 | a scope exists afterwards; an existing one is kept, otherwise a new one is pushed on the context |
| CompilerService.CompilerServiceBase.PopAndClear | src/ScriptEngine/CompilerServiceBase.cs:46-48 | the scope is popped from the context and forgotten |
| CompilerService.CompilerServiceBase.DefineVariable | src/ScriptEngine/CompilerServiceBase.cs:31-51 | the scope is registered, then a variable or a property (by the symbol type) is defined in it; the context's answer is returned; on a failure the scope is popped and forgotten |
| CompilerService.CompilerServiceBase.DefineMethod | src/ScriptEngine/CompilerServiceBase.cs:53-58 | the scope is registered and the method defined in it; the context's answer is returned |
| CompilerService.CompilerServiceBase.DefinePreprocessorValue | src/ScriptEngine/CompilerServiceBase.cs:60-63 | the name is appended to the preprocessor values; nothing else changes |
| CompilerService.CompilerServiceBase.Compile | src/ScriptEngine/CompilerServiceBase.cs:65-77 | the scope is registered and the module compiled with the preprocessor values; whatever the answer, the scope is then popped and forgotten |
| CompilerService.CompilerServiceBase.CompileExpression | src/ScriptEngine/CompilerServiceBase.cs:79-82 | the expression is compiled in the current context; no scope is registered or popped |
| CompilerService.CompilerServiceBase.CompileBatch | src/ScriptEngine/CompilerServiceBase.cs:84-96 | the scope is registered and the batch compiled with the preprocessor values; whatever the answer, the scope is then popped and forgotten |
| CompilerService.DefinitionsShareOneScope | src/ScriptEngine/CompilerServiceBase.cs:31-58 | a run of variable definitions and then a method definition all go into one and the same new scope |
| Registry.IndexOfKey | src/OneScript.StandardLibrary/Collections/StructureImpl.cs:57 | the number a name is registered under is an entry of the same key, or -1 |
| Registry.IndexOfKeyFirst | src/OneScript.StandardLibrary/Collections/StructureImpl.cs:57 | no entry before the number found (none at all for -1) has the key |
| Registry.IndexOfKeyAppend | src/OneScript.StandardLibrary/Collections/StructureImpl.cs:57 | after one more registration a name is found where it was found before, else at the new entry when the keys agree, else nowhere |
| Registry.IndexOfDistinct | src/OneScript.StandardLibrary/Collections/StructureImpl.cs:57 | with distinct keys, a name is found exactly at the entry of its key |
| Registry.InsertedLookup | src/OneScript.StandardLibrary/Collections/StructureImpl.cs:52-69 | after Insert the name reads the inserted value and every other name reads what it read; the entries grow by one exactly when the name was new |
| Registry.InsertedDistinct | src/OneScript.StandardLibrary/Collections/StructureImpl.cs:52-69 | Insert keeps the keys distinct |
| Registry.RemovedLookup | src/OneScript.StandardLibrary/Collections/StructureImpl.cs:72-89 | after Remove the name reads nothing and every other name reads what it read; the entries shrink by one exactly when the name was there; keys stay distinct |
| Registry.KeysStateDistinct | src/OneScript.StandardLibrary/Collections/StructureImpl.cs:29-41 | for distinct names the keys-and-values constructor gives the names in order with the arguments, Undefined past the last one |
| Registry.KeysStateSnoc | src/OneScript.StandardLibrary/Collections/StructureImpl.cs:29-41 | each further name is one Insert of its argument, or of Undefined when the arguments have run out |
| Registry.EveryNameReadsItsValue | src/OneScript.StandardLibrary/Collections/StructureImpl.cs:115-118 | with distinct keys every registered name reads the value at its own number |
| KeyLists.Split | src/OneScript.StandardLibrary/Collections/StructureImpl.cs:32 | the pieces, at least one, hold no comma |
| KeyLists.JoinSplit | src/OneScript.StandardLibrary/Collections/StructureImpl.cs:32 | joining the pieces with the separator gives back the text |
| KeyLists.SplitJoin | src/OneScript.StandardLibrary/Collections/StructureImpl.cs:32 | splitting pieces free of the separator, joined with it, gives back the pieces |
| KeyLists.TrimShape | src/OneScript.StandardLibrary/Collections/StructureImpl.cs:34 | Trim is empty exactly for white space; otherwise it starts and ends on a non-space; it is the text with leading and trailing white space cut |
| KeyLists.TrimIdempotent | src/OneScript.StandardLibrary/Collections/StructureImpl.cs:34 | trimming twice is trimming once |
| KeyLists.KeyNamesOfEmpty | src/OneScript.StandardLibrary/Collections/StructureImpl.cs:31-40 | an empty list of properties names no property |
| KeyLists.PropNamesStep | src/OneScript.StandardLibrary/Collections/StructureImpl.cs:31-40 | each piece adds its trimmed name to the names, and an empty one adds nothing |
| KeyLists.PieceInPropNames | src/OneScript.StandardLibrary/Collections/StructureImpl.cs:31-40 | every piece that is not blank is one of the names |
| Collections.Structure.constructor | src/OneScript.StandardLibrary/Collections/StructureImpl.cs:24-27 | an empty structure |
| Collections.Structure.Insert | src/OneScript.StandardLibrary/Collections/StructureImpl.cs:52-69 | an invalid identifier raises InvalidPropertyName and nothing changes; otherwise the registry is Inserted with the value, Undefined when none is given |
| Collections.Structure.Remove | src/OneScript.StandardLibrary/Collections/StructureImpl.cs:72-89 | an invalid identifier raises InvalidPropertyName and nothing changes; otherwise the registry is Removed of the name |
| Collections.Structure.HasProperty | src/OneScript.StandardLibrary/Collections/StructureImpl.cs:92-113 | an invalid identifier is an error; otherwise whether the name is registered, and its value (Undefined if not) |
| Collections.Structure.GetPropertyNumber | src/OneScript.StandardLibrary/Collections/StructureImpl.cs:115-128 | PropertyNotFound exactly for an unregistered name; otherwise a number whose name has the same key and whose value the name reads |
| Collections.Structure.GetPropValue | src/OneScript.StandardLibrary/Collections/StructureImpl.cs:115-118 | the value the property's own name reads |
| Collections.Structure.SetPropValue | src/OneScript.StandardLibrary/Collections/StructureImpl.cs:120-123 | only that property's value changes |
| Collections.Structure.GetPropName | src/OneScript.StandardLibrary/Collections/StructureImpl.cs:130-133 | a name registered under exactly that number |
| Collections.Structure.GetPropertyInfo | src/OneScript.StandardLibrary/Collections/StructureImpl.cs:135-144 | the property's name, found under that number, readable and writable |
| Collections.Structure.Count | src/OneScript.StandardLibrary/Collections/StructureImpl.cs:194-197 | the number of registered properties |
| Collections.Structure.Clear | src/OneScript.StandardLibrary/Collections/StructureImpl.cs:200-204 | no property is left |
| Collections.Structure.Pairs | src/OneScript.StandardLibrary/Collections/StructureImpl.cs:210-218 | the KeyAndValue pairs in property order, each name reading its value |
| Collections.Structure.FromKeysAndValues | src/OneScript.StandardLibrary/Collections/StructureImpl.cs:29-41 | an error exactly when a listed name is not a valid identifier, naming such a name; otherwise a new structure holding KeysState of the names and arguments |
| Collections.Structure.CopyOf | src/OneScript.StandardLibrary/Collections/StructureImpl.cs:43-49 | a new structure with the same names, in the same order, and the same values |
| Collections.Structure.Constructor | src/OneScript.StandardLibrary/Collections/StructureImpl.cs:254-264 | no argument: an empty structure; a string: FromKeysAndValues; a fixed structure: a copy of its contents; anything else: InvalidConstructorArgument |
| Collections.FixedStructure.FromStructure | src/OneScript.StandardLibrary/Collections/FixedStructureImpl.cs:23-27 | a new fixed structure over a new copy of the structure's names and values |
| Collections.FixedStructure.Wrapping | src/OneScript.StandardLibrary/Collections/FixedStructureImpl.cs:29-32 | a fixed structure over the given structure, used by the keys-and-values constructor |
| Collections.FixedStructure.HasProperty | src/OneScript.StandardLibrary/Collections/FixedStructureImpl.cs:35-38 | as the wrapped structure answers |
| Collections.FixedStructure.GetPropertyNumber | src/OneScript.StandardLibrary/Collections/FixedStructureImpl.cs:55-58 | as the wrapped structure answers: not found exactly for an unregistered name |
| Collections.FixedStructure.GetPropValue | src/OneScript.StandardLibrary/Collections/FixedStructureImpl.cs:45-48 | the value the property's own name reads in the wrapped structure |
| Collections.FixedStructure.IsPropWritable | src/OneScript.StandardLibrary/Collections/FixedStructureImpl.cs:40-43 | no property is writable |
| Collections.FixedStructure.SetPropValue | src/OneScript.StandardLibrary/Collections/FixedStructureImpl.cs:50-53 | every write raises ReadOnlyProperty |
| Collections.FixedStructure.GetPropertyInfo | src/OneScript.StandardLibrary/Collections/FixedStructureImpl.cs:70-80 | the property's name, found under that number, readable and not writable |
| Collections.FixedStructure.Count | src/OneScript.StandardLibrary/Collections/FixedStructureImpl.cs:125-128 | the number of properties of the wrapped structure |
| Collections.FixedStructure.Pairs | src/OneScript.StandardLibrary/Collections/FixedStructureImpl.cs:134-137 | the wrapped structure's pairs in property order |
| Collections.FixedStructure.FromKeysAndValues | src/OneScript.StandardLibrary/Collections/FixedStructureImpl.cs:29-32 | an error exactly when a listed name is not a valid identifier; otherwise a new fixed structure over KeysState of the names and arguments |
| Collections.FixedStructure.Constructor | src/OneScript.StandardLibrary/Collections/FixedStructureImpl.cs:169-179 | no argument: empty; a string: FromKeysAndValues; a structure: a copy of its contents; anything else: InvalidConstructorArgument |
| LoadedModules.ResolvedParameters | src/ScriptEngine/Machine/LoadedModule.cs:62-76 | resolving a parameter list keeps its presence and its length |
| LoadedModules.ResolvedAnnotations | src/ScriptEngine/Machine/LoadedModule.cs:62-76 | resolving an annotation list keeps its presence and its length |
| LoadedModules.ResolutionPerParameter | src/ScriptEngine/Machine/LoadedModule.cs:62-76 | each annotation keeps its name; each parameter keeps its name and index; a defined index is in range and gives the constant at that index as the run-time value; an undefined one leaves the parameter as it was |
| LoadedModules.ResolutionIdempotent | src/ScriptEngine/Machine/LoadedModule.cs:62-76 | resolving twice is resolving once |
| LoadedModules.ParsedConstants | src/ScriptEngine/Machine/LoadedModule.cs:27-30 | one value per constant definition, parsed from its presentation and type code |
| LoadedModules.EvaluateAnnotationParametersValues | src/ScriptEngine/Machine/LoadedModule.cs:62-76 | success exactly when every defined index is in range, with ResolvedAnnotations as the result; otherwise IndexOutOfRange |
| LoadedModules.ResolvedSignature | src/ScriptEngine/Machine/LoadedModule.cs:43-60 | resolving a signature keeps the number of its parameters |
| LoadedModules.ResolveSignature | src/ScriptEngine/Machine/LoadedModule.cs:43-60 | success exactly when ArgCount does not exceed the parameters and every annotation index of the method and its first ArgCount parameters is in range; the result is ResolvedSignature |
| LoadedModules.LoadedModule.constructor | src/ScriptEngine/Machine/LoadedModule.cs:19-41 | the module takes the image's code, entry point, references and exports, the given constants table, annotations, variables and methods |
| LoadedModules.Load | src/ScriptEngine/Machine/LoadedModule.cs:19-41 | success exactly when the image's annotations all resolve; the module is new, over a new table of the parsed constants, and copies the image with every annotation, variable and method resolved (MadeFrom) |
| BinaryOperations.Compile | src/OneScript.Native/Compiler/BinaryOperationCompiler.cs:22-34 | a left operand of a value type takes the dynamic path; any other, the static path |
| BinaryOperations.AdjustRules | src/OneScript.Native/Compiler/BinaryOperationCompiler.cs:101-122 | the result is always a MakeBinary on the operator; equal types are combined unconverted; a user operator is used when found; an integer left with no user operator and a non-integer right is widened to decimal |
| BinaryOperations.StaticEqualityAccepted | src/OneScript.Native/Compiler/BinaryOperationCompiler.cs:78-84 | static Equal and NotEqual are always accepted: a dynamic equality over the left as a BSL value when the right is a value, a plain MakeBinary otherwise |
| BinaryOperations.NumericLeftRule | src/OneScript.Native/Compiler/BinaryOperationCompiler.cs:86-99 | a numeric left is accepted exactly for a numeric or value right, which is refused with NotDefinedForNumber otherwise |
| BinaryOperations.IntegerLeftWidened | src/OneScript.Native/Compiler/BinaryOperationCompiler.cs:101-122 | an integer left meeting a non-integer numeric right, with no user operator, is converted to decimal |
| BinaryOperations.DateLeftRules | src/OneScript.Native/Compiler/BinaryOperationCompiler.cs:138-203 | a numeric right is accepted only by Add and Subtract, as an AddSeconds offset (negated for Subtract); date minus date is DateDiff; any other comparison compares the left as a date; a value right is decided at run time for Subtract and accepted only by Add among the other non-comparisons; everything else is NotDefinedForDates |
| BinaryOperations.StringLeftRules | src/OneScript.Native/Compiler/BinaryOperationCompiler.cs:53-66 | a string left is accepted exactly for Add and the comparison operators, which compare both sides as BSL values against zero; every other operator is NotDefinedForStrings |
| BinaryOperations.BooleanLeftRule | src/OneScript.Native/Compiler/BinaryOperationCompiler.cs:205-215 | a boolean left always gives one MakeBinary on the operator over the left and the right made boolean (ToBoolean for a value) |
| BinaryOperations.DynamicRules | src/OneScript.Native/Compiler/BinaryOperationCompiler.cs:238-265 | a value left is accepted exactly for the operators the dynamic path knows (every one but the others, which are NotDefinedForValues); *, / and % are a MakeBinary over both sides converted by ToNumber |
| BinaryOperations.OtherStaticTypeRefused | src/OneScript.Native/Compiler/BinaryOperationCompiler.cs:36-76 | a left of any other static type is NotDefinedForTypes, except for the equalities |
| BinaryData.FlattenSnoc | src/OneScript.StandardLibrary/Binary/GlobalBinaryData.cs:163-178 | concatenating one more buffer appends its bytes |
| BinaryData.GetBinaryDataFromBase64String | src/OneScript.StandardLibrary/Binary/GlobalBinaryData.cs:305-315 | the decoded bytes, or empty data when the text is not valid Base64 |
| BinaryData.GetBinaryDataFromBase64BinaryData | src/OneScript.StandardLibrary/Binary/GlobalBinaryData.cs:371-385 | missing data is InvalidArgumentType; otherwise the data read as UTF-8 and decoded as Base64, empty data when either step fails |
| BinaryData.SplitBinaryData | src/OneScript.StandardLibrary/Binary/GlobalBinaryData.cs:187-219 | missing data is InvalidArgumentType; a size outside 1..Int32.MaxValue is InvalidArgumentValue; otherwise the parts concatenate to the data, each holds 1..size bytes and all but the last exactly size; data shorter than size is one part |
| BinaryData.ConcatBinaryData | src/OneScript.StandardLibrary/Binary/GlobalBinaryData.cs:163-178 | a missing array is InvalidArgumentType; an element that is not binary data is InvalidCast; otherwise the concatenation of the buffers in order |
| BinaryData.BuffersSnoc | src/OneScript.StandardLibrary/Binary/GlobalBinaryData.cs:163-178 | the buffers of one more binary element are the earlier buffers and its own |
| HexTable.HexDigitsValues | src/OneScript.StandardLibrary/Binary/GlobalBinaryData.cs:38-56 | the table has an entry for each of the 256 byte values |
| HexTable.HexTableDescription | src/OneScript.StandardLibrary/Binary/GlobalBinaryData.cs:38-60 | as written, the table gives 0-9 for the digits, 10-16 for A-G and a-g (G included), and -1 for every other byte |
| HexTable.HexTableIsDigitTable | src/OneScript.StandardLibrary/Binary/GlobalBinaryData.cs:38-60 | every entry of the table is -1 or a digit value |
| HexTable.AcceptedDigits | src/OneScript.StandardLibrary/Binary/GlobalBinaryData.cs:62-89 | the digit values kept from the input are no more than its bytes |
| HexTable.AcceptedDigitsAppend | src/OneScript.StandardLibrary/Binary/GlobalBinaryData.cs:62-89 | the digits kept from two pieces are those of the first, then those of the second |
| HexTable.HexArrayToByteArrayWith | src/OneScript.StandardLibrary/Binary/GlobalBinaryData.cs:62-89 | the loop over the input yields PairDigits of the digits the table accepts, one byte per two digits, an odd last digit dropped |
| HexTable.HexArrayToByteArray | src/OneScript.StandardLibrary/Binary/GlobalBinaryData.cs:62-89 | the same with the table as written |
| HexTable.GetHexBinaryDataFromBinaryData | src/OneScript.StandardLibrary/Binary/GlobalBinaryData.cs:521-525 | two hexadecimal characters per byte |
| HexTable.HexBinaryRoundTrip | src/OneScript.StandardLibrary/Binary/GlobalBinaryData.cs:495-525 | hex binary data made from bytes decodes back to those bytes |
| HexTable.GetBinaryDataFromHexBinaryData | src/OneScript.StandardLibrary/Binary/GlobalBinaryData.cs:495-500 | missing data is InvalidArgumentType; otherwise PairDigits of the digits the table as written accepts |
| HexTable.HexTableAcceptsG | src/OneScript.StandardLibrary/Binary/GlobalBinaryData.cs:38-89 | as written, the table accepts G: the input "GG" gives the digits [16, 16] and the data [16], although it holds no hexadecimal digit |
| HexTable.CorrectedTableIsHex | src/OneScript.StandardLibrary/Binary/GlobalBinaryData.cs:38-60 | the corrected table accepts exactly the hexadecimal digits, with their values |
| HexTable.CorrectedTableAgreesWithText | src/OneScript.StandardLibrary/Binary/GlobalBinaryData.cs:24-89 | with the corrected table, the digits kept from binary data are those the text route keeps |
| HexTable.GetBinaryDataFromHexBinaryDataCorrected | src/OneScript.StandardLibrary/Binary/GlobalBinaryData.cs:495-500 | as evidently intended: missing data is InvalidArgumentType; otherwise the bytes of the hexadecimal digits of the data, as GetBinaryDataFromHexString reads them |
| HexText.HexValue | src/OneScript.StandardLibrary/Binary/GlobalBinaryData.cs:24-36 | a hexadecimal digit has a value below 16 |
| HexText.HexOnly | src/OneScript.StandardLibrary/Binary/GlobalBinaryData.cs:24-36 | only hexadecimal digits are kept |
| HexText.HexOnlyAppend | src/OneScript.StandardLibrary/Binary/GlobalBinaryData.cs:24-36 | the digits kept from two pieces are those of the first, then those of the second |
| HexText.HexValues | src/OneScript.StandardLibrary/Binary/GlobalBinaryData.cs:24-36 | one value per digit, in order |
| HexText.HexStringToByteArray | src/OneScript.StandardLibrary/Binary/GlobalBinaryData.cs:24-36 | a FormatError exactly when an odd number of hexadecimal digits remains after dropping the others; otherwise each pair of digits is one byte |
| HexText.UpperHexDigit | src/OneScript.StandardLibrary/Binary/GlobalBinaryData.cs:469-474 | the upper-case digit of a value below 16 is a hexadecimal digit of that value |
| HexText.HexEncode | src/OneScript.StandardLibrary/Binary/GlobalBinaryData.cs:469-474 | two upper-case hexadecimal digits per byte |
| HexText.GetHexStringFromBinaryData | src/OneScript.StandardLibrary/Binary/GlobalBinaryData.cs:469-474 | missing data is InvalidArgumentType; otherwise text of two characters per byte |
| HexText.HexOnlyOfHexEncode | src/OneScript.StandardLibrary/Binary/GlobalBinaryData.cs:469-474 | the encoding holds only hexadecimal digits |
| HexText.HexTextRoundTrip | src/OneScript.StandardLibrary/Binary/GlobalBinaryData.cs:447-474 | hexadecimal text made from bytes reads back to those bytes |
| ByteOrder.GetStringFromByteBuffer | src/OneScript.StandardLibrary/Binary/GlobalBinaryData.cs:91-131 | the decoded part is never longer than the buffer; when the given encoding has no preamble, the whole buffer is decoded with it |
| ByteOrder.MarkThenPayload | src/OneScript.StandardLibrary/Binary/GlobalBinaryData.cs:91-131 | the detected mark followed by the decoded bytes is the buffer |
| ByteOrder.BomRoundTrip | src/OneScript.StandardLibrary/Binary/GlobalBinaryData.cs:91-131 | a mark of another encoding is detected and removed, and the rest decoded with that encoding, except exactly when a UTF-16 LE mark is followed by two zero bytes: that is read as the UTF-32 LE mark |
| ByteOrder.NoBomIffGivenEncoding | src/OneScript.StandardLibrary/Binary/GlobalBinaryData.cs:91-131 | when the given encoding has a preamble, it decodes the whole buffer exactly when the buffer starts with no other encoding's mark |
| DigitPairs.PairDigits | src/OneScript.StandardLibrary/Binary/GlobalBinaryData.cs:62-89 | one byte per two digits, an odd last digit dropped |
| DigitPairs.PairDigitsAt | src/OneScript.StandardLibrary/Binary/GlobalBinaryData.cs:62-89 | the k-th byte is made of the 2k-th and the (2k+1)-th digits |
| DigitPairs.ByteDigits | src/OneScript.StandardLibrary/Binary/GlobalBinaryData.cs:469-474 | a byte's high and low digits make the byte again |
| ParseRules.NextReadAdvances | src/OneScript.Language/SyntaxAnalysis/DefaultBslParser.cs:1307-1310 | a lexeme other than the end of text is consumed: the position moves by one to the next lexeme |
| ParseRules.EndIsNoWord | src/OneScript.Language/SyntaxAnalysis/DefaultBslParser.cs:1353-1356 | the end of text is neither a literal, a user symbol nor an identifier |
| ParseRules.SkipTargetRules | src/OneScript.Language/SyntaxAnalysis/DefaultBslParser.cs:1326-1337 | the skip stops at the end of text, at a statement start, or after at least one step at a terminator, and every lexeme it steps over is none of those |
| ParseRules.ProductSignsDiffer | src/OneScript.Language/SyntaxAnalysis/DefaultBslParser.cs:1146-1162 | every sign the multiplication level tests as written is a product sign, and Division is the one product sign it does not test |
| ParseRules.DefaultValueRules | src/OneScript.Language/SyntaxAnalysis/DefaultBslParser.cs:411-449 | a default value is accepted exactly for a literal that carries no sign before a string or date; a non-literal is LiteralExpected; the value keeps type and token, and only a minus before a number changes its text, by prefixing - |
| Sequences.FirstWhereIsFirst | src/OneScript.Language/SyntaxAnalysis/PreprocessorHandlers.cs:30-33 | no element before the index found (none at all for -1) satisfies the predicate |

## Left out

- Values.Value: script numbers are `Number(n: int)`, while the source's numbers are C# `decimal`. Fractions, decimal rounding and decimal overflow are not modelled. The checked `(int)` casts are modelled: Machine.Machine.PopInt fails with Overflow outside the 32-bit range. Truncating a fraction toward zero is not modelled, because no fraction exists here.
- Machine.Machine.OpInc: adds 1 to an integer. `Inc` on a fractional decimal (0.5 to 1.5) cannot be stated, because numbers are integers.
- Machine.Machine.OpArithmetic: the engine's arithmetic on values is a parameter of the machine, not the decimal arithmetic of ValueFactory.
- Builtins.PowInt: computes over unbounded integers. The source's decimal multiplication throws OverflowException past the decimal range, and that is not modelled.
- Builtins.StrEntryCount: matches the needle ordinally. The source calls the culture-sensitive `String.IndexOf(string)`, whose matches can differ for characters that compare equal under the current culture. The requires covers what the source can finish: with an empty needle and a non-empty haystack, the source's loop never ends.
- Machine.Machine.OpCall: calls only script methods of the loaded module. The CallContext opcode (MachineInstance.cs:953-973) calls into a context object through CallAsFunction or CallAsProcedure, which are foreign code, so it is not dispatched.
  - Its two checkable steps are modelled standalone: CallArguments.PadArguments (padding a fixed signature with the skipped marker) and Machine.Machine.PrepareContextCall (the argument checks).
- LoadedModules.Load: annotation constants are resolved into a new value. The source writes RuntimeValue in place into parameter arrays it shares with the image. The model does not capture that aliasing, or the values already written when a later lookup throws.
- LoadedModules.EvaluateAnnotationParametersValues: the same in-place writes and partial writes before a throw are not modelled. UndefinedValueIndex is taken to be -1, because its definition is not part of this model.
- Events.DefaultEventProcessor.AddHandler: assumes GetMethodExecutor never throws for the target and method name.
- Events.DefaultEventProcessor.HandleEvent: assumes handlers never throw. The handlers are recorded as invoked, in order; their effects are not modelled.
- BinaryOperations.Compile: answers Ok wherever the resolution rules build an expression. Expression.MakeBinary itself can still throw for operand types it has no operator for, for example Add on two booleans on the logical path (BinaryOperations.BooleanLeftRule states that path). The model also assumes BslStringValue is not a dynamic value type.
- BinaryData.ConcatBinaryData: every element that is not binary data is one InvalidCast error. The failure of AsObject for a value that is not an object is folded into that error.
- ParseRules.IsLiteral: LanguageDef is not part of this model. "Is a literal" is decided from the lexeme type.
- ParseRules.IsUserSymbol: decided from the lexeme type and token in place of LanguageDef.
- ParseRules.IsIdentifier: decided from the lexeme type and token in place of LanguageDef.
- Parser.Parser.constructor: LanguageDef.IsBeginOfStatement and IsEndOfBlockToken are given as token sets. The lexer's MoveToContent is also given, as the set of positions at which more text follows.
- Parser.Parser.AddError: the position an error is stamped with is the number of lexemes read, not the line and column.
- Parser.Parser.BuildComplexStructureStatement: the Try, RaiseException, Execute, AddHandler and RemoveHandler branches are empty in this version of the parser (DefaultBslParser.cs:617-629). The model keeps them empty, and the syntax of those statements is not modelled.
- Parser.Parser.ParseDirectives: the builder's PreprocessorDirective hook does nothing and does not advance. So a directive makes the source loop for ever, which the model reports as `hung`.
- ImportDirectives.ImportDirectivesHandler.HandleDirective: the handler's own word lexer is modelled only by its outcome, the lexemes that follow the directive on its line.
- Floating-point built-ins (Log, trigonometry, Exp, Sqrt, non-integer Pow, Round) are not modelled, because they rest on `double` and library rounding.
- Date built-ins are not modelled, because they rest on DateTime and the calendar.
- Evaluate, Execute and the compile cache are not modelled, because they call compiler services outside this model.
- The debugger and code-statistics hooks are external collaborators.
- Object creation (NewInstance, NewFunc), iterators, event opcodes and the other opcode handlers not named in the table are not modelled. Machine.Machine.ExecuteCommand answers NotModelled for such an opcode and changes nothing.
- Base64 and text encoders are parameters of the binary-data model (the decoder, the UTF-8 reader and the per-encoding decoding).
- The native backend beyond operator resolution and the block stack is not modelled, because it builds System.Linq.Expressions trees.
- Case-insensitive name folding in the property registries is a parameter, the `key` function.

## Findings

| source | as written | input that shows it | evidently intended | confidence | as-written member | corrected member |
|---|---|---|---|---|---|---|
| src/OneScript.StandardLibrary/Binary/GlobalBinaryData.cs:38-89 | the digit table maps 'G' and 'g' to 16, so HexArrayToByteArray keeps them as digits | the hex binary data "GG" (bytes 71, 71) decodes to the one byte 16 | only 0-9, A-F and a-f are digits, as in HexStringToByteArray, so "GG" decodes to no bytes | not executed | HexTable.HexTableAcceptsG | HexTable.GetBinaryDataFromHexBinaryDataCorrected (with HexTable.CorrectedTableIsHex) |
| src/OneScript.Language/SyntaxAnalysis/DefaultBslParser.cs:1146-1162 | the multiplication level builds a BinaryOperation node but returns its left operand, and it tests Multiply twice, so Division is never an operator | `a * b` yields the node of `a`, with the product node left detached; `a / b` stops before `/` | the product node is the result, and Division is a product sign like Multiply and Modulo | not executed | Parser.Parser.BuildMultiplication (with ParseRules.ProductSignsDiffer) | Parser.Parser.BuildMultiplicationCorrected |
| src/OneScript.Language/SyntaxAnalysis/DefaultBslParser.cs:677-695 | the while loop checks for EndLoop but does not consume it | after `Пока Истина Цикл КонецЦикла;` the current lexeme is still `КонецЦикла` instead of `;`, where the enclosing statement list stops | the EndLoop token is consumed after the BlockEnd node, as both For loops do (DefaultBslParser.cs:751-755, 785-788) | not executed | Parser.Parser.BuildWhileBody | Parser.Parser.BuildWhileBodyCorrected |
| src/OneScript.Language/SyntaxAnalysis/DefaultBslParser.cs:686-717 | leaving any loop clears the single in-loop flag, so a loop nested in another clears it for the rest of the outer body | in `Для Каждого А Из Б Цикл Для Каждого В Из Г Цикл КонецЦикла; Прервать; КонецЦикла;` the Break is reported as outside a loop | leaving a loop restores the flag it found | not executed | Parser.Parser.LeaveLoopAsWritten | Parser.Parser.LeaveLoop (with Parser.Parser.FlagAfterLoop) |

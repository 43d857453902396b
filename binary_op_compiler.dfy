/**
 * BinaryOperationCompiler of the native compiler: how a binary operation on
 * two typed operand expressions becomes an expression tree. The model keeps
 * the decision: which path (static or dynamic) is taken, which conversions
 * are wrapped around the operands, which construction makes the result, and
 * when the operation is refused. The expression trees are a small datatype
 * instead of System.Linq.Expressions objects.
 *
 * The type tests of the source (IsValue, IsNumeric, IsInteger) are extension
 * methods that are not part of this model; the operand types carry their
 * answers. ToNumber is taken to yield a decimal, and the reflection lookup of
 * a user-defined operator (op_Add and so on) is a parameter.
 */
module BinaryOperations {
  import opened Wrappers

  /** The ExpressionType codes the compiler tests for; the token-to-code mapping is not modelled. */
  datatype OpCode =
    | Add | Subtract | Multiply | Divide | Modulo
    | Equal | NotEqual | LessThan | LessThanOrEqual | GreaterThan | GreaterThanOrEqual
    | OtherOp(code: nat)

  /** The CLR type of an operand, as far as the compiler distinguishes types. */
  datatype OperandType =
    | ValueType(id: nat)                        // a BslValue type (IsValue holds): the dynamic path
    | NumericType(isInteger: bool, id: nat)     // IsNumeric holds; IsInteger as given
    | DateTimeType
    | StringType                                // System.String
    | BslStringType                             // BslStringValue, taken as a static type
    | BoolType
    | OtherType(id: nat)

  /** System.Decimal, the type ToNumber yields and integers are widened to. */
  const DecimalType := NumericType(false, 0)

  /** System.Double, the argument type of DateTime.AddSeconds. */
  const DoubleType := OtherType(1)

  /** A user-defined operator method found by reflection. */
  datatype UserOperator = UserOperator(id: nat)

  /** The expression trees the compiler builds. */
  datatype Expr =
    | Operand(t: OperandType)
    | Convert(e: Expr, to: OperandType)
    | ToNumber(e: Expr)
    | ToDate(e: Expr)
    | ToBoolean(e: Expr)
    | ToStringValue(e: Expr)
    | ToBslValue(e: Expr)
    | MakeBinary(op: OpCode, l: Expr, r: Expr, userMethod: Option<UserOperator>)
    | CallEquals(l: Expr, r: Expr)
    | Not(e: Expr)
    | CompareToZero(op: OpCode, l: Expr, r: Expr)      // MakeBinary(op, CallCompareTo(l, r), 0)
    | DynamicAdd(l: Expr, r: Expr)
    | DynamicSubtract(l: Expr, r: Expr)
    | AddSeconds(date: Expr, seconds: Expr)            // DateTime.AddSeconds
    | Negate(e: Expr)
    | DateDiff(l: Expr, r: Expr)                       // (decimal)(l - ToDate(r)).TotalSeconds
    | IfDate(test: Expr, whenDate: Expr, otherwise: Expr)  // Condition(TypeIs(test, BslDateValue), ...)
    | StringConcat(l: Expr, r: Expr)                   // string.Concat(string, string)
    | BslStringAdd(l: Expr, r: Expr)

  /** The NativeCompilerException messages. */
  datatype CompileError =
    | NotDefinedForStrings(op: OpCode)
    | NotDefinedForTypes(op: OpCode, left: OperandType, right: OperandType)
    | NotDefinedForNumber(op: OpCode, right: OperandType)
    | NotDefinedForDates(op: OpCode)
    | NotDefinedForValues(op: OpCode)

  predicate IsValue(t: OperandType) { t.ValueType? }
  predicate IsNumeric(t: OperandType) { t.NumericType? }
  predicate IsInteger(t: OperandType) { t.NumericType? && t.isInteger }

  predicate IsComparisonOperation(op: OpCode)
  {
    op == LessThan || op == LessThanOrEqual || op == GreaterThan || op == GreaterThanOrEqual
  }

  type OperatorLookup = (OpCode, OperandType, OperandType) -> Option<UserOperator>

  /** AdjustArithmeticOperandTypesAndMakeBinary: equal types combine directly; otherwise a user
      operator is used when there is one; failing that an integer left meeting a non-integer right
      is widened to decimal and the rule applied again, and any other right is converted to the
      left's type. */
  function Adjust(op: OpCode, userOp: OperatorLookup, l: Expr, lt: OperandType, r: Expr, rt: OperandType): Expr
    decreases if IsInteger(lt) then 1 else 0
  {
    if lt == rt then MakeBinary(op, l, r, None)
    else
      var m := userOp(op, lt, rt);
      if m.None? && IsInteger(lt) && !IsInteger(rt) then
        Adjust(op, userOp, Convert(l, DecimalType), DecimalType, r, rt)
      else if m.None? then MakeBinary(op, l, Convert(r, lt), None)
      else MakeBinary(op, l, r, m)
  }

  /** MakeNumericOperation: a numeric or dynamic right operand, the latter through ToNumber. */
  function NumericOperation(op: OpCode, userOp: OperatorLookup, l: Expr, lt: OperandType, r: Expr, rt: OperandType)
    : Result<Expr, CompileError>
  {
    if IsNumeric(rt) then Ok(Adjust(op, userOp, l, lt, r, rt))
    else if IsValue(rt) then Ok(Adjust(op, userOp, l, lt, ToNumber(r), DecimalType))
    else Err(NotDefinedForNumber(op, rt))
  }

  /** MakeDynamicEquality: Equals, negated for NotEqual. */
  function DynamicEquality(op: OpCode, l: Expr, r: Expr): Expr
  {
    if op == NotEqual then Not(CallEquals(l, r)) else CallEquals(l, r)
  }

  /** DateOffsetOperation: AddSeconds with the offset, negated for Subtract; other operators raise. */
  function DateOffset(op: OpCode, l: Expr, r: Expr): Result<Expr, CompileError>
  {
    var seconds := Convert(r, DoubleType);
    if op == Add then Ok(AddSeconds(l, seconds))
    else if op == Subtract then Ok(AddSeconds(l, Negate(seconds)))
    else Err(NotDefinedForDates(op))
  }

  /** DateOperation: a date left operand. */
  function DateOperation(op: OpCode, l: Expr, r: Expr, rt: OperandType): Result<Expr, CompileError>
  {
    if IsNumeric(rt) then DateOffset(op, l, r)
    else if op == Subtract && rt == DateTimeType then Ok(DateDiff(l, r))
    else if IsComparisonOperation(op) then Ok(MakeBinary(op, ToDate(l), r, None))
    else if IsValue(rt) then
      if op == Subtract then
        var asDate := DateDiff(l, Convert(r, DateTimeType));
        var asOffset := DateOffset(op, l, ToNumber(r));
        Ok(IfDate(r, asDate, asOffset.value))
      else DateOffset(op, l, ToNumber(r))
    else Err(NotDefinedForDates(op))
  }

  /** StringAddition: a BslStringValue adds the right operand's string form; a System.String
      concatenates with the right operand, converted unless it is a string already. */
  function StringAddition(l: Expr, lt: OperandType, r: Expr, rt: OperandType): Expr
  {
    if lt == BslStringType then BslStringAdd(l, ToStringValue(r))
    else if rt == StringType then StringConcat(l, r)
    else StringConcat(l, ToStringValue(r))
  }

  /** MakeLogicalOperation: the right operand is made boolean. */
  function LogicalOperation(op: OpCode, l: Expr, r: Expr, rt: OperandType): Expr
  {
    if IsValue(rt) then MakeBinary(op, l, ToBoolean(r), None)
    else MakeBinary(op, l, Convert(r, BoolType), None)
  }

  /** CompileStaticOperation: the left operand has a static (non-value) type. */
  function CompileStatic(op: OpCode, userOp: OperatorLookup, lt: OperandType, rt: OperandType)
    : Result<Expr, CompileError>
  {
    var l := Operand(lt);
    var r := Operand(rt);
    if op == Equal || op == NotEqual then
      if IsValue(rt) then Ok(DynamicEquality(op, ToBslValue(l), r))
      else Ok(MakeBinary(op, l, r, None))
    else if IsNumeric(lt) then NumericOperation(op, userOp, l, lt, r, rt)
    else if lt == DateTimeType then DateOperation(op, l, r, rt)
    else if lt == StringType || lt == BslStringType then
      if op == Add then Ok(StringAddition(l, lt, r, rt))
      else if IsComparisonOperation(op) then Ok(CompareToZero(op, ToBslValue(l), ToBslValue(r)))
      else Err(NotDefinedForStrings(op))
    else if lt == BoolType then Ok(LogicalOperation(op, l, r, rt))
    else Err(NotDefinedForTypes(op, lt, rt))
  }

  /** CompileDynamicOperation: the left operand is a script value. */
  function CompileDynamic(op: OpCode, userOp: OperatorLookup, lt: OperandType, rt: OperandType)
    : Result<Expr, CompileError>
  {
    var l := Operand(lt);
    var r := Operand(rt);
    match op
    case Add => Ok(DynamicAdd(l, r))
    case Subtract => Ok(DynamicSubtract(l, r))
    case LessThan => Ok(CompareToZero(op, l, r))
    case LessThanOrEqual => Ok(CompareToZero(op, l, r))
    case GreaterThan => Ok(CompareToZero(op, l, r))
    case GreaterThanOrEqual => Ok(CompareToZero(op, l, r))
    case Equal => Ok(DynamicEquality(op, l, r))
    case NotEqual => Ok(DynamicEquality(op, l, r))
    case Multiply => NumericOperation(op, userOp, ToNumber(l), DecimalType, ToNumber(r), DecimalType)
    case Divide => NumericOperation(op, userOp, ToNumber(l), DecimalType, ToNumber(r), DecimalType)
    case Modulo => NumericOperation(op, userOp, ToNumber(l), DecimalType, ToNumber(r), DecimalType)
    case OtherOp(_) => Err(NotDefinedForValues(op))
  }

  /** Compile: a left operand of a value type takes the dynamic path, any other the static one. */
  function Compile(op: OpCode, userOp: OperatorLookup, lt: OperandType, rt: OperandType): (r: Result<Expr, CompileError>)
    ensures IsValue(lt) ==> r == CompileDynamic(op, userOp, lt, rt)
    ensures !IsValue(lt) ==> r == CompileStatic(op, userOp, lt, rt)
  {
    if IsValue(lt) then CompileDynamic(op, userOp, lt, rt) else CompileStatic(op, userOp, lt, rt)
  }

  // ---------------------------------------------------------------- the resolution rules

  /** The operands of a numeric plan, with the conversions around them. */
  predicate CombinesOperands(e: Expr, op: OpCode, l: Expr, r: Expr)
  {
    e.MakeBinary? && e.op == op && e.l == l && e.r == r
  }

  /** Arithmetic adjustment always combines with the requested operator; equal types are combined
      unconverted; an integer left, with no user operator, is widened to decimal when the right is
      not an integer. */
  lemma {:induction false} AdjustRules(op: OpCode, userOp: OperatorLookup, l: Expr, lt: OperandType, r: Expr, rt: OperandType)
    decreases if IsInteger(lt) then 1 else 0
    ensures Adjust(op, userOp, l, lt, r, rt).MakeBinary? && Adjust(op, userOp, l, lt, r, rt).op == op
    ensures lt == rt ==> CombinesOperands(Adjust(op, userOp, l, lt, r, rt), op, l, r)
    ensures lt != rt && userOp(op, lt, rt).None? && IsInteger(lt) && !IsInteger(rt) ==>
      Adjust(op, userOp, l, lt, r, rt).l == Convert(l, DecimalType)
    ensures lt != rt && userOp(op, lt, rt).Some? ==>
      Adjust(op, userOp, l, lt, r, rt) == MakeBinary(op, l, r, userOp(op, lt, rt))
  {
    if lt != rt && userOp(op, lt, rt).None? && IsInteger(lt) && !IsInteger(rt) {
      AdjustRules(op, userOp, Convert(l, DecimalType), DecimalType, r, rt);
    }
  }

  /** Static Equal and NotEqual are always accepted, through dynamic equality exactly when the
      right operand is a value. */
  lemma StaticEqualityAccepted(op: OpCode, userOp: OperatorLookup, lt: OperandType, rt: OperandType)
    requires !IsValue(lt) && (op == Equal || op == NotEqual)
    ensures var r := Compile(op, userOp, lt, rt);
      r.Ok?
      && (IsValue(rt) ==> r.value == DynamicEquality(op, ToBslValue(Operand(lt)), Operand(rt)))
      && (!IsValue(rt) ==> r.value == MakeBinary(op, Operand(lt), Operand(rt), None))
  {
  }

  /** A numeric left accepts exactly a numeric or value right operand. */
  lemma NumericLeftRule(op: OpCode, userOp: OperatorLookup, lt: OperandType, rt: OperandType)
    requires IsNumeric(lt) && op != Equal && op != NotEqual
    ensures Compile(op, userOp, lt, rt).Ok? <==> IsNumeric(rt) || IsValue(rt)
    ensures Compile(op, userOp, lt, rt).Err? ==> Compile(op, userOp, lt, rt).error == NotDefinedForNumber(op, rt)
    ensures IsValue(rt) ==> (Compile(op, userOp, lt, rt).value.MakeBinary?
      && Compile(op, userOp, lt, rt).value.op == op)
  {
    if IsNumeric(rt) {
      AdjustRules(op, userOp, Operand(lt), lt, Operand(rt), rt);
    } else if IsValue(rt) {
      AdjustRules(op, userOp, Operand(lt), lt, ToNumber(Operand(rt)), DecimalType);
    }
  }

  /** An integer left meeting a non-integer numeric right, with no user operator, is widened. */
  lemma IntegerLeftWidened(op: OpCode, userOp: OperatorLookup, lt: OperandType, rt: OperandType)
    requires IsInteger(lt) && IsNumeric(rt) && !IsInteger(rt) && op != Equal && op != NotEqual
    requires userOp(op, lt, rt).None?
    ensures Compile(op, userOp, lt, rt).Ok? && Compile(op, userOp, lt, rt).value.MakeBinary?
    ensures Compile(op, userOp, lt, rt).value.l == Convert(Operand(lt), DecimalType)
  {
    AdjustRules(op, userOp, Operand(lt), lt, Operand(rt), rt);
  }

  /** Date rules: a numeric right is an offset for Add and Subtract only; date minus date is a
      difference; the orderings compare; a value right is decided at run time for Subtract and is
      an offset otherwise; everything else is refused. */
  lemma DateLeftRules(op: OpCode, userOp: OperatorLookup, rt: OperandType)
    requires op != Equal && op != NotEqual
    ensures var r := Compile(op, userOp, DateTimeType, rt);
      var l := Operand(DateTimeType);
      (IsNumeric(rt) ==> (r.Ok? <==> op == Add || op == Subtract))
      && (IsNumeric(rt) && op == Add ==> r == Ok(AddSeconds(l, Convert(Operand(rt), DoubleType))))
      && (IsNumeric(rt) && op == Subtract ==> r == Ok(AddSeconds(l, Negate(Convert(Operand(rt), DoubleType)))))
      && (rt == DateTimeType && op == Subtract ==> r == Ok(DateDiff(l, Operand(rt))))
      && (!IsNumeric(rt) && !(rt == DateTimeType && op == Subtract) && IsComparisonOperation(op) ==>
            r == Ok(MakeBinary(op, ToDate(l), Operand(rt), None)))
      && (IsValue(rt) && op == Subtract ==> r.Ok? && r.value.IfDate?)
      && (IsValue(rt) && !IsComparisonOperation(op) && op != Subtract ==> (r.Ok? <==> op == Add))
      && ((!IsNumeric(rt) && !IsValue(rt) && !IsComparisonOperation(op) && !(rt == DateTimeType && op == Subtract))
            ==> r == Err(NotDefinedForDates(op)))
  {
  }

  /** A string left supports Add and the four orderings, and refuses every other operator. */
  lemma StringLeftRules(op: OpCode, userOp: OperatorLookup, lt: OperandType, rt: OperandType)
    requires lt == StringType || lt == BslStringType
    requires op != Equal && op != NotEqual
    ensures var r := Compile(op, userOp, lt, rt);
      (r.Ok? <==> op == Add || IsComparisonOperation(op))
      && (r.Err? ==> r.error == NotDefinedForStrings(op))
      && (IsComparisonOperation(op) ==> r.value == CompareToZero(op, ToBslValue(Operand(lt)), ToBslValue(Operand(rt))))
  {
  }

  /** The dynamic path accepts the additive, ordering, equality and multiplicative operators, and
      refuses every other. */
  lemma DynamicRules(op: OpCode, userOp: OperatorLookup, lt: OperandType, rt: OperandType)
    requires IsValue(lt)
    ensures Compile(op, userOp, lt, rt).Ok? <==> !op.OtherOp?
    ensures op.OtherOp? ==> Compile(op, userOp, lt, rt) == Err(NotDefinedForValues(op))
    ensures (op == Multiply || op == Divide || op == Modulo) ==>
      Compile(op, userOp, lt, rt) == Ok(MakeBinary(op, ToNumber(Operand(lt)), ToNumber(Operand(rt)), None))
  {
  }

  /** A boolean left accepts every operator other than the equalities and builds one MakeBinary on
      it: the right operand is made boolean, through ToBoolean when it is a value. Whether the
      operator is defined on booleans is left to Expression.MakeBinary. */
  lemma BooleanLeftRule(op: OpCode, userOp: OperatorLookup, rt: OperandType)
    requires op != Equal && op != NotEqual
    ensures var r := Compile(op, userOp, BoolType, rt);
      r.Ok? && r.value.MakeBinary? && r.value.op == op && r.value.l == Operand(BoolType)
      && r.value.r == (if IsValue(rt) then ToBoolean(Operand(rt)) else Convert(Operand(rt), BoolType))
      && r.value.userMethod.None?
  {
  }

  /** A static left type that is not numeric, date, string or boolean is refused, except for the
      always-accepted equalities. */
  lemma OtherStaticTypeRefused(op: OpCode, userOp: OperatorLookup, lt: OperandType, rt: OperandType)
    requires lt.OtherType? && op != Equal && op != NotEqual
    ensures Compile(op, userOp, lt, rt) == Err(NotDefinedForTypes(op, lt, rt))
  {
  }
}

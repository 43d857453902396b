/**
 * DefaultBslParser: the recursive-descent parser of the script language. It
 * reads lexemes one at a time (NextLexem), asks its builder for nodes
 * (CreateNode, AddChild), keeps a stack of parent nodes (_parsingContext), a
 * stack of the terminator sets of the open blocks and argument lists
 * (_tokenStack), the annotations read but not yet applied, and its scope
 * flags. Errors are appended to a list; AddError then skips ahead to a point
 * where parsing can resume, and inside TryParseNode it also throws
 * InternalParseException, which TryParseNode catches.
 *
 * Here the lexer is the lexeme sequence with a read count, the builder is the
 * arena of SyntaxTree, and a thrown InternalParseException is `pending`: every
 * caller returns as soon as a call leaves it set, after the cleanups of its
 * `finally` blocks. Where the source would repeat a loop for ever, `hung` is set
 * and the parser stops.
 */
module Parser {
  import opened Wrappers
  import opened Builtins
  import opened Lexemes
  import opened SyntaxTree
  import opened ParseRules

  /** The parser's block state, which no statement changes: the stack of parent nodes
      (_parsingContext, innermost last), the stack of terminator sets of the open blocks and
      argument lists (_tokenStack, innermost last), and the scope flags of methods, with
      _enableException, which TryParseNode sets. */
  datatype Scope = Scope(contexts: seq<nat>, tokenStack: seq<seq<Token>>,
                         inMethodScope: bool, isMethodsDefined: bool,
                         isInFunctionScope: bool, enableException: bool)

  /** The two scope flags that statements change: _isStatementsDefined, which a statement sets,
      and _isInLoopScope, which a loop sets while its body is read. */
  datatype StatementFlags = StatementFlags(isStatementsDefined: bool, isInLoopScope: bool)

  /** One more than the largest node reference in `refs`, 0 for none. */
  function RefBound(refs: seq<nat>): (b: nat)
    ensures forall i :: 0 <= i < |refs| ==> refs[i] < b
  {
    if |refs| == 0 then 0
    else
      var rest := RefBound(refs[..|refs| - 1]);
      assert forall i :: 0 <= i < |refs| - 1 ==> refs[..|refs| - 1][i] == refs[i];
      if rest < refs[|refs| - 1] + 1 then refs[|refs| - 1] + 1 else rest
  }

  /** A pushed reference raises the bound to itself at least, and no further. */
  lemma RefBoundPush(refs: seq<nat>, r: nat)
    ensures RefBound(refs + [r]) == if RefBound(refs) < r + 1 then r + 1 else RefBound(refs)
  {
    assert (refs + [r])[..|refs|] == refs;
  }

  /** Popping a reference never raises the bound. */
  lemma RefBoundPop(refs: seq<nat>)
    requires |refs| > 0
    ensures RefBound(refs[..|refs| - 1]) <= RefBound(refs)
  {
  }

  /** Процедура and Функция, the tokens that begin a method. */
  predicate StartsMethod(t: Token)
  {
    t == Token.Procedure || t == Token.Function
  }

  /** The block state of a new parser. */
  const EmptyScope := Scope([], [], false, false, false, false)

  /** The statement flags of a new parser. */
  const NoStatementFlags := StatementFlags(false, false)

  class Parser {
    /** What the lexer yields, in order; after them it yields the end of text for ever. */
    const lexemes: seq<Lexem>
    /** LanguageDef.IsBeginOfStatement, as the set of tokens it holds for. */
    const beginsStatement: set<Token>
    /** LanguageDef.IsEndOfBlockToken, as the set of tokens it holds for. */
    const endsBlock: set<Token>
    /** Whether the evidently intended versions of the multiplication level, of the while loop's
        end and of the in-loop flag are used instead of the versions as written. */
    const corrected: bool
    /** The lexer positions (numbers of lexemes read) at which the lexer's iterator finds more
        text ahead, as MoveToContent answers. */
    const moreText: set<nat>

    /** The number of lexemes taken from the lexer, the position errors are stamped with. */
    var read: nat
    var nodes: seq<SyntaxNode>
    var errors: seq<ParseError>
    /** The block state: _parsingContext, _tokenStack and the scope flags of methods. */
    var scope: Scope
    /** _isStatementsDefined and _isInLoopScope. */
    var flags: StatementFlags
    /** _annotations: the Annotation nodes read but not yet applied to a definition, in order. */
    var annotations: seq<nat>
    /** Whether the last member access parsed can be assigned to. */
    var lastDereferenceIsWritable: bool
    /** An InternalParseException on its way out, with the error it carries. */
    var pending: Option<ParseError>
    /** Set where the source would repeat a loop for ever. */
    var hung: bool

    /** The parser before its first NextLexem. */
    constructor (lexemes: seq<Lexem>, beginsStatement: set<Token>, endsBlock: set<Token>, corrected: bool, moreText: set<nat>)
      ensures this.lexemes == lexemes && this.beginsStatement == beginsStatement
      ensures this.endsBlock == endsBlock && this.corrected == corrected && this.moreText == moreText
      ensures read == 0 && nodes == [] && errors == [] && scope == EmptyScope && flags == NoStatementFlags && annotations == [] && !lastDereferenceIsWritable
      ensures pending.None? && !hung && Valid()
    {
      this.lexemes := lexemes;
      this.beginsStatement := beginsStatement;
      this.endsBlock := endsBlock;
      this.corrected := corrected;
      this.moreText := moreText;
      read := 0;
      nodes := [];
      errors := [];
      scope := EmptyScope;
      flags := NoStatementFlags;
      annotations := [];
      lastDereferenceIsWritable := false;
      pending := None;
      hung := false;
    }

    /** The lexer position is in range, and the context stack and the pending annotations name
        nodes of the arena. */
    predicate Valid()
      reads this
    {
      read <= |lexemes| + 1 && RefBound(scope.contexts) <= |nodes| && RefBound(annotations) <= |nodes|
    }

    /** _lastExtractedLexem. */
    function Cur(): Lexem
      reads this
    {
      LexemAt(lexemes, read)
    }

    /** An exception is on its way out, or the parser stopped in an endless loop. */
    predicate Stopped()
      reads this
    {
      pending.Some? || hung
    }

    /** CurrentParent. */
    function CurrentParent(): (p: nat)
      requires |scope.contexts| > 0
      reads this
      ensures p < RefBound(scope.contexts)
    {
      scope.contexts[|scope.contexts| - 1]
    }

    /** What every parsing step keeps: the lexer only moves forward, and the arena and the error
        list only grow. */
    twostate predicate Grown()
      reads this
    {
      old(read) <= read && |old(nodes)| <= |nodes| && old(errors) <= errors
    }

    /** No node that existed before is touched. */
    twostate predicate NodesKept()
      reads this
    {
      old(nodes) <= nodes
    }

    /** What an expression builder keeps: the block state. */
    twostate predicate ExprKept()
      reads this
    {
      scope == old(scope) && flags == old(flags) && annotations == old(annotations)
    }

    /** The block state and the writable flag are as before. */
    twostate predicate ScopeKept()
      reads this
    {
      scope == old(scope) && flags == old(flags) && annotations == old(annotations) && lastDereferenceIsWritable == old(lastDereferenceIsWritable)
    }

    /** What an expression step keeps: the invariant, growth, the block state, and an exception
        only where TryParseNode enabled it. */
    twostate predicate ExprStep()
      reads this
    {
      Valid() && Grown() && ExprKept() && (pending.Some? ==> scope.enableException)
    }

    /** Only the lexer position changed. */
    twostate predicate OnlyRead()
      reads this
    {
      nodes == old(nodes) && errors == old(errors) && scope == old(scope) && flags == old(flags) && annotations == old(annotations)
      && lastDereferenceIsWritable == old(lastDereferenceIsWritable)
      && pending == old(pending) && hung == old(hung)
    }

    /** Only the arena changed. */
    twostate predicate OnlyNodes()
      reads this
    {
      read == old(read) && errors == old(errors) && scope == old(scope) && flags == old(flags) && annotations == old(annotations)
      && lastDereferenceIsWritable == old(lastDereferenceIsWritable)
      && pending == old(pending) && hung == old(hung)
    }

    // ---------------------------------------------------------------- lexer and builder

    /** NextLexem: the next lexeme becomes current. */
    method NextLexem()
      modifies this
      ensures read == NextRead(lexemes, old(read)) && OnlyRead()
    {
      read := NextRead(lexemes, read);
    }

    /** NextExpected: NextLexem, then whether the new current token is the expected one. */
    method NextExpected(expected: Token) returns (found: bool)
      modifies this
      ensures read == NextRead(lexemes, old(read)) && OnlyRead()
      ensures found <==> Cur().token == expected
    {
      NextLexem();
      found := Cur().token == expected;
    }

    /** The builder's CreateNode: a new node with no children. */
    method CreateNode(kind: NodeKind, lexem: Lexem) returns (id: nat)
      modifies this
      ensures id == |old(nodes)| && nodes == old(nodes) + [SyntaxNode(kind, lexem, [])] && OnlyNodes()
    {
      id := |nodes|;
      nodes := nodes + [SyntaxNode(kind, lexem, [])];
    }

    /** The builder's AddChild: the child goes last among the parent's children. */
    method AddChild(parent: nat, child: Option<nat>)
      requires parent < |nodes|
      modifies this
      ensures nodes == WithChild(old(nodes), parent, child) && OnlyNodes()
    {
      nodes := WithChild(nodes, parent, child);
    }

    /** CreateChild: a new node, appended to the parent's children. */
    method CreateChild(parent: nat, kind: NodeKind, lexem: Lexem) returns (id: nat)
      requires parent < |nodes|
      modifies this
      ensures id == |old(nodes)|
      ensures nodes == WithChild(old(nodes) + [SyntaxNode(kind, lexem, [])], parent, Some(id)) && OnlyNodes()
    {
      id := CreateNode(kind, lexem);
      AddChild(parent, Some(id));
    }

    /** CreateNode followed at once by AddChild of its first child. */
    method CreateNodeOver(kind: NodeKind, lexem: Lexem, child: Option<nat>) returns (id: nat)
      modifies this
      ensures id == |old(nodes)| && nodes == old(nodes) + [SyntaxNode(kind, lexem, [child])] && OnlyNodes()
    {
      id := CreateNode(kind, lexem);
      AddChild(id, child);
      WithChildOfLast(old(nodes), SyntaxNode(kind, lexem, []), child);
      assert [] + [child] == [child];
    }

    // ---------------------------------------------------------------- errors

    /** SkipToNextStatement: step over lexemes until the end of text or a statement start, or
        until a step lands on one of the stop tokens. */
    method SkipToNextStatement(stops: seq<Token>)
      requires read <= |lexemes| + 1
      modifies this
      ensures read == SkipTarget(lexemes, old(read), stops, beginsStatement) && OnlyRead()
    {
      while !(Cur().token == Token.EndOfText || Cur().token in beginsStatement)
        invariant old(read) <= read <= |lexemes| + 1 && OnlyRead()
        invariant SkipTarget(lexemes, read, stops, beginsStatement) == SkipTarget(lexemes, old(read), stops, beginsStatement)
        decreases |lexemes| + 1 - read
      {
        NextLexem();
        if Cur().token in stops {
          break;
        }
      }
    }

    /** AddError: the error is stamped with the lexer position and appended; the lexer skips to
        the next statement or to a token of the innermost terminator set; inside TryParseNode the
        error is thrown. */
    method AddError(e: ErrorKind)
      requires Valid() && !Stopped()
      modifies this
      ensures Valid() && errors == old(errors) + [ParseError(e, old(read))]
      ensures read == SkipTarget(lexemes, old(read), Stops(scope.tokenStack), beginsStatement) && old(read) <= read
      ensures pending == (if scope.enableException then Some(ParseError(e, old(read))) else None)
      ensures nodes == old(nodes) && ScopeKept() && !hung
    {
      var err := ParseError(e, read);
      AddErrorSkip(read);
      errors := errors + [err];
      SkipToNextStatement(Stops(scope.tokenStack));
      if scope.enableException {
        pending := Some(err);
      }
    }

    /** AddError's skip, as the lexer sees it: never backwards, and never past the end. */
    lemma AddErrorSkip(from: nat)
      requires from <= |lexemes| + 1
      ensures from <= SkipTarget(lexemes, from, Stops(scope.tokenStack), beginsStatement) <= |lexemes| + 1
    {
      SkipTargetRules(lexemes, from, Stops(scope.tokenStack), beginsStatement);
    }

    /** TryParseNode, on entry: the previous flag is saved and exceptions are enabled. */
    method TryBegin() returns (saved: bool)
      modifies this
      ensures saved == old(scope).enableException && flags == old(flags) && scope == old(scope).(enableException := true) && annotations == old(annotations)
      ensures read == old(read) && nodes == old(nodes) && errors == old(errors)
      ensures lastDereferenceIsWritable == old(lastDereferenceIsWritable) && pending == old(pending) && hung == old(hung)
    {
      saved := scope.enableException;
      scope := scope.(enableException := true);
    }

    /** TryParseNode, on exit: an InternalParseException is caught and answered with false, and
        the previous flag is restored on every path. */
    method TryEnd(saved: bool) returns (ok: bool)
      modifies this
      ensures ok <==> old(pending).None?
      ensures pending.None? && flags == old(flags) && scope == old(scope).(enableException := saved) && annotations == old(annotations)
      ensures read == old(read) && nodes == old(nodes) && errors == old(errors)
      ensures lastDereferenceIsWritable == old(lastDereferenceIsWritable) && hung == old(hung)
    {
      ok := pending.None?;
      pending := None;
      scope := scope.(enableException := saved);
    }

    /** PushStructureToken: a set of terminators goes on top of the stack. */
    method PushStructureToken(tokens: seq<Token>)
      modifies this
      ensures flags == old(flags) && scope == old(scope).(tokenStack := old(scope).tokenStack + [tokens]) && annotations == old(annotations)
      ensures read == old(read) && nodes == old(nodes) && errors == old(errors)
      ensures lastDereferenceIsWritable == old(lastDereferenceIsWritable) && pending == old(pending) && hung == old(hung)
    {
      scope := scope.(tokenStack := scope.tokenStack + [tokens]);
    }

    /** PopStructureToken: the top set is removed. */
    method PopStructureToken()
      requires |scope.tokenStack| > 0
      modifies this
      ensures flags == old(flags) && scope == old(scope).(tokenStack := old(scope).tokenStack[..|old(scope).tokenStack| - 1]) && annotations == old(annotations)
      ensures read == old(read) && nodes == old(nodes) && errors == old(errors)
      ensures lastDereferenceIsWritable == old(lastDereferenceIsWritable) && pending == old(pending) && hung == old(hung)
    {
      scope := scope.(tokenStack := scope.tokenStack[..|scope.tokenStack| - 1]);
    }

    // ---------------------------------------------------------------- binary levels

    /** The result of one binary level: the first operand, with the current token not one of the
        level's signs; or the last node of the arena, a BinaryOperation on the sign at `opAt` whose
        children are exactly the two operands. */
    ghost predicate OneOperator(level: Level, r: Option<nat>, first: Option<nat>, second: Option<nat>, opAt: nat)
      reads this
    {
      (r == first && !LevelSign(level, Cur().token))
      || (LevelSign(level, LexemAt(lexemes, opAt).token) && |nodes| > 0 && r == Some(|nodes| - 1)
          && nodes[|nodes| - 1] == SyntaxNode(NodeKind.BinaryOperation, LexemAt(lexemes, opAt), [first, second]))
    }

    /** The last step of a binary level: the node on the sign, over the two operands. */
    method MakeBinary(op: Lexem, first: Option<nat>, second: Option<nat>) returns (r: Option<nat>)
      modifies this
      ensures r == Some(|old(nodes)|) && nodes == old(nodes) + [SyntaxNode(NodeKind.BinaryOperation, op, [first, second])]
      ensures OnlyNodes()
    {
      var node := CreateNodeOver(NodeKind.BinaryOperation, op, first);
      AddChild(node, second);
      WithChildOfLast(old(nodes), SyntaxNode(NodeKind.BinaryOperation, op, [first]), second);
      assert [first] + [second] == [first, second];
      r := Some(node);
    }

    /** The builder of the operands of each binary level. */
    method BuildOperand(level: Level) returns (r: Option<nat>)
      requires Valid() && !Stopped()
      modifies this
      ensures ExprStep() && NodesKept() && ValidRef(nodes, r)
      decreases |lexemes| + 1 - read, 39
    {
      ghost var g1, g2, g3;
      match level
      case OrLevel => r, g1, g2, g3 := BuildLogicalAnd();
      case AndLevel => r, g1 := BuildLogicalNot();
      case ComparisonLevel => r, g1, g2, g3 := BuildAddition();
      case AdditionLevel => r := BuildProductOperand();
      case ProductLevel => r, g1 := BuildUnaryArifmetics();
    }

    /** The second half of a binary level, at its sign: the sign is consumed, the second operand
        read, and a BinaryOperation node made on the sign over the two operands. */
    method BuildBinaryRight(level: Level, left: Option<nat>) returns (r: Option<nat>, ghost second: Option<nat>)
      requires Valid() && !Stopped() && ValidRef(nodes, left) && Cur().token != Token.EndOfText
      modifies this
      ensures ExprStep() && NodesKept() && ValidRef(nodes, r)
      ensures !Stopped() ==> (|old(nodes)| < |nodes| && r == Some(|nodes| - 1)
        && nodes[|nodes| - 1] == SyntaxNode(NodeKind.BinaryOperation, old(Cur()), [left, second]))
      decreases |lexemes| + 1 - read, 1
    {
      var op := Cur();
      NextLexem();
      var right := BuildOperand(level);
      second := right;
      if Stopped() {
        return None, second;
      }
      r := MakeBinary(op, left, right);
    }

    /** BuildLogicalOr: one And-level operand, or two joined by one Or. */
    method BuildLogicalOr() returns (r: Option<nat>, ghost first: Option<nat>, ghost second: Option<nat>, ghost opAt: nat)
      requires Valid() && !Stopped()
      modifies this
      ensures ExprStep() && NodesKept() && ValidRef(nodes, r)
      ensures !Stopped() ==> OneOperator(OrLevel, r, first, second, opAt)
      decreases |lexemes| + 1 - read, 40
    {
      ghost var g1, g2, g3;
      var left;
      left, g1, g2, g3 := BuildLogicalAnd();
      first, second, opAt := left, None, read;
      if Stopped() || Cur().token != Token.Or {
        return left, first, second, opAt;
      }
      r, second := BuildBinaryRight(OrLevel, left);
    }

    /** BuildLogicalAnd: one Not-level operand, or two joined by one And. */
    method BuildLogicalAnd() returns (r: Option<nat>, ghost first: Option<nat>, ghost second: Option<nat>, ghost opAt: nat)
      requires Valid() && !Stopped()
      modifies this
      ensures ExprStep() && NodesKept() && ValidRef(nodes, r)
      ensures !Stopped() ==> OneOperator(AndLevel, r, first, second, opAt)
      decreases |lexemes| + 1 - read, 38
    {
      ghost var g;
      var left;
      left, g := BuildLogicalNot();
      first, second, opAt := left, None, read;
      if Stopped() || Cur().token != Token.And {
        return left, first, second, opAt;
      }
      r, second := BuildBinaryRight(AndLevel, left);
    }

    /** BuildLogicalNot: a Not wraps exactly one comparison-level operand in a UnaryOperation
        node made on the Not; without a Not the comparison is the result. */
    method BuildLogicalNot() returns (r: Option<nat>, ghost operand: Option<nat>)
      requires Valid() && !Stopped()
      modifies this
      ensures ExprStep() && NodesKept() && ValidRef(nodes, r)
      ensures !Stopped() && old(Cur()).token == Token.Not ==>
        r == Some(|old(nodes)|) && nodes[|old(nodes)|] == SyntaxNode(NodeKind.UnaryOperation, old(Cur()), [operand])
      ensures !Stopped() && old(Cur()).token != Token.Not ==> r == operand
      decreases |lexemes| + 1 - read, 36
    {
      if Cur().token == Token.Not {
        r, operand := BuildNegation();
        return;
      }
      ghost var g1, g2, g3;
      var arg;
      arg, g1, g2, g3 := BuildLogicalComparison();
      r, operand := arg, arg;
    }

    /** BuildLogicalNot on a Not: the UnaryOperation node over the comparison that follows. */
    method BuildNegation() returns (r: Option<nat>, ghost operand: Option<nat>)
      requires Valid() && !Stopped() && Cur().token == Token.Not
      modifies this
      ensures ExprStep() && NodesKept() && ValidRef(nodes, r)
      ensures !Stopped() ==>
        r == Some(|old(nodes)|) && nodes[|old(nodes)|] == SyntaxNode(NodeKind.UnaryOperation, old(Cur()), [operand])
      decreases |lexemes| + 1 - read, 35
    {
      ghost var g1, g2, g3;
      var arg;
      var operation := CreateNode(NodeKind.UnaryOperation, Cur());
      NextLexem();
      arg, g1, g2, g3 := BuildLogicalComparison();
      operand := arg;
      if Stopped() {
        return None, operand;
      }
      AddedAbove(old(nodes), nodes, operation, arg, nodes[operation]);
      AddChild(operation, arg);
      r := Some(operation);
    }

    /** BuildLogicalComparison: one addition-level operand, or two joined by one comparison sign;
        comparisons do not chain. */
    method BuildLogicalComparison() returns (r: Option<nat>, ghost first: Option<nat>, ghost second: Option<nat>, ghost opAt: nat)
      requires Valid() && !Stopped()
      modifies this
      ensures ExprStep() && NodesKept() && ValidRef(nodes, r)
      ensures !Stopped() ==> OneOperator(ComparisonLevel, r, first, second, opAt)
      decreases |lexemes| + 1 - read, 34
    {
      ghost var g1, g2, g3;
      var left;
      left, g1, g2, g3 := BuildAddition();
      first, second, opAt := left, None, read;
      if Stopped() || !ComparisonSign(Cur().token) {
        return left, first, second, opAt;
      }
      r, second := BuildBinaryRight(ComparisonLevel, left);
    }

    /** BuildAddition: one product-level operand, or two joined by one + or -. */
    method BuildAddition() returns (r: Option<nat>, ghost first: Option<nat>, ghost second: Option<nat>, ghost opAt: nat)
      requires Valid() && !Stopped()
      modifies this
      ensures ExprStep() && NodesKept() && ValidRef(nodes, r)
      ensures !Stopped() ==> OneOperator(AdditionLevel, r, first, second, opAt)
      decreases |lexemes| + 1 - read, 32
    {
      var left := BuildProductOperand();
      first, second, opAt := left, None, read;
      if Stopped() || !AdditiveSign(Cur().token) {
        return left, first, second, opAt;
      }
      r, second := BuildBinaryRight(AdditionLevel, left);
    }

    /** The operand of the addition level: the multiplication level as written, or the corrected
        one. */
    method BuildProductOperand() returns (r: Option<nat>)
      requires Valid() && !Stopped()
      modifies this
      ensures ExprStep() && NodesKept() && ValidRef(nodes, r)
      decreases |lexemes| + 1 - read, 30
    {
      ghost var g1, g2, g3, b;
      if corrected {
        r, g1, g2, g3 := BuildMultiplicationCorrected();
      } else {
        r, b, g2, g3 := BuildMultiplication();
      }
    }

    /** BuildMultiplication, as written: a Multiply or Modulo sign after the first operand (Division
        is not among the signs tested) makes a BinaryOperation node over both operands, but the
        result is the first operand all the same, and the node is left unattached. */
    method BuildMultiplication() returns (r: Option<nat>, ghost built: bool, ghost second: Option<nat>, ghost opAt: nat)
      requires Valid() && !Stopped()
      modifies this
      ensures ExprStep() && NodesKept() && ValidRef(nodes, r)
      ensures !Stopped() && !built ==> !ProductSignAsWritten(Cur().token)
      ensures !Stopped() && built ==>
        ProductSignAsWritten(LexemAt(lexemes, opAt).token) && |nodes| > 0 && r != Some(|nodes| - 1)
        && nodes[|nodes| - 1] == SyntaxNode(NodeKind.BinaryOperation, LexemAt(lexemes, opAt), [r, second])
      decreases |lexemes| + 1 - read, 28
    {
      ghost var g;
      r, g := BuildUnaryArifmetics();
      built, second, opAt := false, None, read;
      if !Stopped() && ProductSignAsWritten(Cur().token) {
        second := BuildUnattachedProduct(r);
        built := !Stopped();
      }
    }

    /** BuildMultiplication, as written, at a Multiply or Modulo sign: the BinaryOperation node over
        the first operand and the second one, which nothing takes as its child. */
    method BuildUnattachedProduct(left: Option<nat>) returns (ghost second: Option<nat>)
      requires Valid() && !Stopped() && ValidRef(nodes, left) && ProductSignAsWritten(Cur().token)
      modifies this
      ensures ExprStep() && NodesKept()
      ensures !Stopped() ==>
        |old(nodes)| < |nodes| && nodes[|nodes| - 1] == SyntaxNode(NodeKind.BinaryOperation, old(Cur()), [left, second])
      decreases |lexemes| + 1 - read, 27
    {
      var node;
      node, second := BuildBinaryRight(ProductLevel, left);
    }

    /** The multiplication level as evidently intended: one unary-level operand, or two joined by
        one of *, / and %, the BinaryOperation node being the result. */
    method BuildMultiplicationCorrected() returns (r: Option<nat>, ghost first: Option<nat>, ghost second: Option<nat>, ghost opAt: nat)
      requires Valid() && !Stopped()
      modifies this
      ensures ExprStep() && NodesKept() && ValidRef(nodes, r)
      ensures !Stopped() ==> OneOperator(ProductLevel, r, first, second, opAt)
      decreases |lexemes| + 1 - read, 28
    {
      ghost var g;
      var left;
      left, g := BuildUnaryArifmetics();
      first, second, opAt := left, None, read;
      if Stopped() || !ProductSign(Cur().token) {
        return left, first, second, opAt;
      }
      r, second := BuildBinaryRight(ProductLevel, left);
    }

    /** BuildUnaryArifmetics: a + or - wraps exactly one parenthesis-level operand in a
        UnaryOperation node made on the sign; without a sign the operand is the result. */
    method BuildUnaryArifmetics() returns (r: Option<nat>, ghost operand: Option<nat>)
      requires Valid() && !Stopped()
      modifies this
      ensures ExprStep() && NodesKept() && ValidRef(nodes, r)
      ensures !Stopped() && AdditiveSign(old(Cur()).token) ==>
        r == Some(|nodes| - 1) && nodes[|nodes| - 1] == SyntaxNode(NodeKind.UnaryOperation, old(Cur()), [operand])
      ensures !Stopped() && !AdditiveSign(old(Cur()).token) ==> r == operand
      decreases |lexemes| + 1 - read, 26
    {
      var hasUnarySign := AdditiveSign(Cur().token);
      var operation := Cur();
      if hasUnarySign {
        NextLexem();
      }
      ghost var g1, g2, g3;
      var arg;
      arg, g1, g2, g3 := BuildParenthesis();
      operand := arg;
      if Stopped() || !hasUnarySign {
        return arg, operand;
      }
      var op := CreateNodeOver(NodeKind.UnaryOperation, operation, arg);
      r := Some(op);
    }

    /** BuildParenthesis: after ( the expression restarts at the Or level (`inner`, which ends
        before the lexeme at `innerEnd`); that lexeme is consumed whatever it is, and is
        TokenExpected unless it is ). Anything else is a terminal. */
    method BuildParenthesis() returns (r: Option<nat>, ghost inner: Option<nat>, ghost innerEnd: nat,
                                       ghost innerErrors: seq<ParseError>)
      requires Valid() && !Stopped()
      modifies this
      ensures ExprStep() && NodesKept() && ValidRef(nodes, r)
      ensures !Stopped() && old(Cur()).token == Token.OpenPar ==>
        r == inner && old(read) < innerEnd && |old(errors)| <= |innerErrors|
        && read == NextRead(lexemes, SkipTo(innerEnd, LexemAt(lexemes, innerEnd).token != Token.ClosePar))
        && (LexemAt(lexemes, innerEnd).token == Token.ClosePar ==> errors == innerErrors)
        && (LexemAt(lexemes, innerEnd).token != Token.ClosePar ==>
              errors == innerErrors + [ParseError(TokenExpected([Token.ClosePar]), innerEnd)])
      decreases |lexemes| + 1 - read, 24
    {
      innerEnd, innerErrors := read, errors;
      if Cur().token != Token.OpenPar {
        r := TerminalNode();
        inner := r;
        return;
      }
      ghost var g1, g2, g3;
      var expr;
      NextLexem();
      expr, g1, g2, g3 := BuildLogicalOr();
      inner := expr;
      innerEnd, innerErrors := read, errors;
      if Stopped() {
        return None, inner, innerEnd, innerErrors;
      }
      if Cur().token != Token.ClosePar {
        AddError(TokenExpected([Token.ClosePar]));
        if Stopped() {
          return None, inner, innerEnd, innerErrors;
        }
      }
      NextLexem();
      r := expr;
    }

    /** Where the lexer is after an error at `at`, if there was one. */
    function SkipTo(at: nat, failed: bool): nat
      reads this
    {
      if failed then SkipTarget(lexemes, at, Stops(scope.tokenStack), beginsStatement) else at
    }

    /** TerminalNode: a literal is a Constant node and is consumed; a name is a global call; New
        and ? start their constructs; anything else is ExpressionSyntax and no node. */
    method TerminalNode() returns (r: Option<nat>)
      requires Valid() && !Stopped()
      modifies this
      ensures ExprStep() && NodesKept() && ValidRef(nodes, r)
      ensures IsLiteral(old(Cur())) ==>
        r == Some(|old(nodes)|) && nodes == old(nodes) + [SyntaxNode(NodeKind.Constant, old(Cur()), [])]
        && read == NextRead(lexemes, old(read)) && errors == old(errors) && !Stopped()
      ensures IsUserSymbol(old(Cur())) ==>
        |old(nodes)| < |nodes| && nodes[|old(nodes)|] == SyntaxNode(NodeKind.Identifier, old(Cur()), [])
      ensures !IsLiteral(old(Cur())) && !IsUserSymbol(old(Cur())) && old(Cur()).token != Token.NewObject
              && old(Cur()).token != Token.Question ==>
        r.None? && nodes == old(nodes) && errors == old(errors) + [ParseError(ExpressionSyntax, old(read))]
      decreases |lexemes| + 1 - read, 22
    {
      if IsLiteral(Cur()) {
        var node := CreateNode(NodeKind.Constant, Cur());
        NextLexem();
        r := Some(node);
      } else if IsUserSymbol(Cur()) {
        r := BuildGlobalCall();
      } else if Cur().token == Token.NewObject {
        r := BuildNewObjectCreation();
      } else if Cur().token == Token.Question {
        ghost var parsed;
        r, parsed := BuildQuestionOperator();
      } else {
        AddError(ExpressionSyntax);
        r := None;
      }
    }

    // ---------------------------------------------------------------- calls and member access

    /** BuildGlobalCall: the name becomes an Identifier node and is consumed, then come an
        optional argument list and any member and index accesses. A bare name is the Identifier
        itself, and is writable. */
    method BuildGlobalCall() returns (r: Option<nat>)
      requires Valid() && !Stopped() && Cur().token != Token.EndOfText
      modifies this
      ensures ExprStep() && NodesKept() && ValidRef(nodes, r)
      ensures |old(nodes)| < |nodes| && nodes[|old(nodes)|] == SyntaxNode(NodeKind.Identifier, old(Cur()), [])
      ensures var next := LexemAt(lexemes, old(read) + 1).token;
        next != Token.OpenPar && next != Token.OpenBracket && next != Token.Dot ==>
          r == Some(|old(nodes)|) && nodes == old(nodes) + [SyntaxNode(NodeKind.Identifier, old(Cur()), [])]
          && read == old(read) + 1 && errors == old(errors) && !Stopped() && lastDereferenceIsWritable
      decreases |lexemes| + 1 - read, 20
    {
      lastDereferenceIsWritable := true;
      var target := CreateNode(NodeKind.Identifier, Cur());
      NextLexem();
      r := BuildCallAndAccesses(target);
    }

    /** The rest of BuildGlobalCall, after the name: an optional argument list, then any member
        and index accesses. */
    method BuildCallAndAccesses(target: nat) returns (r: Option<nat>)
      requires Valid() && !Stopped() && target < |nodes|
      modifies this
      ensures ExprStep() && NodesKept() && ValidRef(nodes, r)
      ensures var t := old(Cur()).token;
        t != Token.OpenPar && t != Token.OpenBracket && t != Token.Dot ==>
          r == Some(target) && nodes == old(nodes) && read == old(read) && errors == old(errors)
          && ScopeKept() && pending == old(pending) && hung == old(hung)
      decreases |lexemes| + 1 - read, 70
    {
      var callNode := BuildCall(Some(target), NodeKind.GlobalCall);
      if Stopped() {
        return None;
      }
      r := BuildDereference(callNode);
    }

    /** BuildCall: at ( a call node of the given kind is made on it, with the target as its first
        child and the argument list as its second; otherwise the target is the result. */
    method BuildCall(target: Option<nat>, callKind: NodeKind) returns (r: Option<nat>)
      requires Valid() && !Stopped() && ValidRef(nodes, target)
      modifies this
      ensures ExprStep() && NodesKept() && ValidRef(nodes, r)
      ensures old(Cur()).token != Token.OpenPar ==>
        r == target && nodes == old(nodes) && read == old(read) && errors == old(errors)
        && ScopeKept() && pending == old(pending) && hung == old(hung)
      ensures old(Cur()).token == Token.OpenPar ==>
        var n := |old(nodes)|;
        r == Some(n) && n + 1 < |nodes|
        && nodes[n] == SyntaxNode(callKind, old(Cur()), [target, Some(n + 1)])
        && nodes[n + 1].kind == NodeKind.CallArgumentList && nodes[n + 1].lexem == old(Cur())
      decreases |lexemes| + 1 - read, 62
    {
      if Cur().token != Token.OpenPar {
        return target;
      }
      var callNode := CreateNode(callKind, Cur());
      AddChild(callNode, target);
      ghost var n1 := nodes;
      var argCount := BuildCallParameters(callNode);
      GrownThenChangedAbove(old(nodes), n1, nodes, callNode);
      ChangedParent(n1, nodes, callNode, callNode);
      r := Some(callNode);
    }

    /** BuildCallParameters, at (: an argument list node is made on it as the call node's last
        child, ) becomes the innermost terminator, and arguments are read until ), which is
        consumed. The count is the number of BuildCallArgument steps. An empty list `()` has no
        argument nodes. A step that does not move the lexer would be repeated for ever. */
    method BuildCallParameters(callNode: nat) returns (argCount: nat)
      requires Valid() && !Stopped() && callNode < |nodes| && Cur().token == Token.OpenPar
      modifies this
      ensures ExprStep()
      ensures ChangedOnlyAt(old(nodes), nodes, callNode) && |old(nodes)| < |nodes|
      ensures nodes[callNode].children == old(nodes[callNode].children) + [Some(|old(nodes)|)]
      ensures nodes[|old(nodes)|].kind == NodeKind.CallArgumentList && nodes[|old(nodes)|].lexem == old(Cur())
      ensures !Stopped() ==> read >= 2 && LexemAt(lexemes, read - 1).token == Token.ClosePar
      ensures LexemAt(lexemes, old(read) + 1).token == Token.ClosePar ==>
        argCount == 0 && nodes[|old(nodes)|].children == [] && read == old(read) + 2
        && errors == old(errors) && !Stopped()
      decreases |lexemes| + 1 - read, 60
    {
      var list := OpenArgumentList(callNode);
      ghost var n1 := nodes;
      argCount := BuildArguments(list);
      CloseArgumentList();
      ChangedThenChangedAbove(old(nodes), n1, nodes, callNode, list);
    }

    /** The start of BuildCallParameters: the list node under the call, ) pushed as the
        innermost terminator, and the ( consumed. */
    method OpenArgumentList(callNode: nat) returns (list: nat)
      requires Valid() && callNode < |nodes|
      modifies this
      ensures Valid() && list == |old(nodes)| && |nodes| == list + 1 && read == NextRead(lexemes, old(read))
      ensures nodes[list] == SyntaxNode(NodeKind.CallArgumentList, old(Cur()), [])
      ensures ChangedOnlyAt(old(nodes), nodes, callNode) && ChangedOnlyAt(nodes, nodes, list)
      ensures nodes[callNode].children == old(nodes[callNode].children) + [Some(list)]
      ensures flags == old(flags) && scope == old(scope).(tokenStack := old(scope).tokenStack + [[Token.ClosePar]]) && annotations == old(annotations)
      ensures errors == old(errors) && pending == old(pending) && hung == old(hung)
    {
      list := CreateChild(callNode, NodeKind.CallArgumentList, Cur());
      WithChildChangesOnlyParent(old(nodes) + [nodes[list]], callNode, Some(list));
      GrownIsChanged(nodes, nodes, list);
      PushStructureToken([Token.ClosePar]);
      NextLexem();
    }

    /** The end of BuildCallParameters: the ) consumed unless parsing stopped, and the
        terminator popped. */
    method CloseArgumentList()
      requires Valid() && |scope.tokenStack| > 0
      modifies this
      ensures Valid() && read == (if old(Stopped()) then old(read) else NextRead(lexemes, old(read)))
      ensures flags == old(flags) && scope == old(scope).(tokenStack := old(scope).tokenStack[..|old(scope).tokenStack| - 1]) && annotations == old(annotations)
      ensures nodes == old(nodes) && errors == old(errors) && pending == old(pending) && hung == old(hung)
    {
      if !Stopped() {
        NextLexem();
      }
      PopStructureToken();
    }

    /** The loop of BuildCallParameters: arguments are read until ) is current. */
    method BuildArguments(list: nat) returns (argCount: nat)
      requires Valid() && !Stopped() && list < |nodes|
      modifies this
      ensures ExprStep()
      ensures ChangedOnlyAt(old(nodes), nodes, list) && nodes[list].kind == old(nodes[list].kind)
      ensures !Stopped() ==> Cur().token == Token.ClosePar
      ensures old(Cur()).token == Token.ClosePar ==>
        argCount == 0 && nodes == old(nodes) && read == old(read) && errors == old(errors) && !Stopped()
      decreases |lexemes| + 1 - read, 59
    {
      argCount := 0;
      GrownIsChanged(nodes, nodes, list);
      if Cur().token == Token.ClosePar {
        return;
      }
      while Cur().token != Token.ClosePar
        invariant ExprStep() && !Stopped()
        invariant ChangedOnlyAt(old(nodes), nodes, list) && nodes[list].kind == old(nodes[list].kind)
        decreases |lexemes| + 1 - read
      {
        ghost var n2 := nodes;
        var moved := BuildArgumentStep(list);
        ChangedTwice(old(nodes), n2, nodes, list);
        argCount := argCount + 1;
        if Stopped() || !moved {
          hung := hung || !moved;
          return;
        }
      }
    }

    /** One turn of the loop of BuildCallParameters: one BuildCallArgument, and whether it moved
        the lexer. */
    method BuildArgumentStep(list: nat) returns (moved: bool)
      requires Valid() && !Stopped() && list < |nodes|
      modifies this
      ensures ExprStep() && ChangedOnlyAt(old(nodes), nodes, list) && nodes[list].kind == old(nodes[list].kind)
      ensures moved <==> old(read) != read
      decreases |lexemes| + 1 - read, 58
    {
      var before := read;
      ghost var exprEnd := BuildCallArgument(list);
      moved := read != before;
    }

    /** BuildCallArgument: a comma at an argument position is an empty CallArgument node on it;
        any other lexeme but ) starts a CallArgument holding one expression, read up to a comma.
        After either, a comma followed directly by ) adds a second, empty, CallArgument on the ).
        At ) nothing happens. */
    method BuildCallArgument(argsList: nat) returns (ghost exprEnd: nat)
      requires Valid() && !Stopped() && argsList < |nodes|
      modifies this
      ensures ExprStep()
      ensures ChangedOnlyAt(old(nodes), nodes, argsList)
      ensures old(Cur()).token == Token.ClosePar ==>
        nodes == old(nodes) && read == old(read) && errors == old(errors) && ScopeKept()
        && pending == old(pending) && hung == old(hung)
      ensures old(Cur()).token == Token.Comma ==>
        var n := |old(nodes)|;
        var closing := LexemAt(lexemes, old(read) + 1).token == Token.ClosePar;
        !Stopped() && errors == old(errors) && read == old(read) + 1 && n < |nodes|
        && nodes[n] == SyntaxNode(NodeKind.CallArgument, old(Cur()), [])
        && nodes[argsList].children == old(nodes[argsList].children) + [Some(n)] + (if closing then [Some(n + 1)] else [])
        && (closing ==> |nodes| == n + 2 && nodes[n + 1] == SyntaxNode(NodeKind.CallArgument, LexemAt(lexemes, read), []))
      ensures !Stopped() && old(Cur()).token != Token.Comma && old(Cur()).token != Token.ClosePar ==>
        var n := |old(nodes)|;
        var trailing := LexemAt(lexemes, exprEnd).token == Token.Comma;
        var closing := trailing && LexemAt(lexemes, exprEnd + 1).token == Token.ClosePar;
        n < |nodes| && nodes[n].kind == NodeKind.CallArgument && nodes[n].lexem == old(Cur())
        && |nodes[n].children| == 1 && old(read) <= exprEnd
        && read == (if trailing then exprEnd + 1 else exprEnd)
        && nodes[argsList].children == old(nodes[argsList].children) + [Some(n)] + (if closing then [Some(|nodes| - 1)] else [])
        && (closing ==> nodes[|nodes| - 1] == SyntaxNode(NodeKind.CallArgument, LexemAt(lexemes, read), []))
      decreases |lexemes| + 1 - read, 57
    {
      exprEnd := read;
      if Cur().token == Token.Comma {
        BuildEmptyArgument(argsList);
      } else if Cur().token != Token.ClosePar {
        exprEnd := BuildExpressionArgument(argsList);
      }
    }

    /** BuildCallArgument at a comma: an empty argument, and perhaps a last one before ). */
    method BuildEmptyArgument(argsList: nat)
      requires Valid() && !Stopped() && argsList < |nodes| && Cur().token == Token.Comma
      modifies this
      ensures Valid() && Grown() && ScopeKept() && pending == old(pending) && hung == old(hung)
      ensures ChangedOnlyAt(old(nodes), nodes, argsList)
      ensures var n := |old(nodes)|;
        var closing := LexemAt(lexemes, old(read) + 1).token == Token.ClosePar;
        errors == old(errors) && read == old(read) + 1 && n < |nodes|
        && nodes[n] == SyntaxNode(NodeKind.CallArgument, old(Cur()), [])
        && nodes[argsList].children == old(nodes[argsList].children) + [Some(n)] + (if closing then [Some(n + 1)] else [])
        && (closing ==> |nodes| == n + 2 && nodes[n + 1] == SyntaxNode(NodeKind.CallArgument, LexemAt(lexemes, read), []))
    {
      var empty := CreateChild(argsList, NodeKind.CallArgument, Cur());
      WithChildChangesOnlyParent(old(nodes) + [nodes[empty]], argsList, Some(empty));
      ghost var n1 := nodes;
      BuildLastDefaultArg(argsList);
      ChangedTwice(old(nodes), n1, nodes, argsList);
    }

    /** BuildCallArgument at an expression: the argument node over an expression read up to a
        comma, and perhaps a last empty argument before ). */
    method BuildExpressionArgument(argsList: nat) returns (ghost exprEnd: nat)
      requires Valid() && !Stopped() && argsList < |nodes|
      requires Cur().token != Token.Comma && Cur().token != Token.ClosePar
      modifies this
      ensures ExprStep()
      ensures ChangedOnlyAt(old(nodes), nodes, argsList)
      ensures !Stopped() ==>
        var n := |old(nodes)|;
        var trailing := LexemAt(lexemes, exprEnd).token == Token.Comma;
        var closing := trailing && LexemAt(lexemes, exprEnd + 1).token == Token.ClosePar;
        n < |nodes| && nodes[n].kind == NodeKind.CallArgument && nodes[n].lexem == old(Cur())
        && |nodes[n].children| == 1 && old(read) <= exprEnd
        && read == (if trailing then exprEnd + 1 else exprEnd)
        && nodes[argsList].children == old(nodes[argsList].children) + [Some(n)] + (if closing then [Some(|nodes| - 1)] else [])
        && (closing ==> nodes[|nodes| - 1] == SyntaxNode(NodeKind.CallArgument, LexemAt(lexemes, read), []))
      decreases |lexemes| + 1 - read, 56
    {
      var node := BuildArgumentNode(argsList);
      exprEnd := read;
      ghost var n1 := nodes;
      if !Stopped() && Cur().token == Token.Comma {
        BuildTrailingComma(argsList);
        ChangedTwice(old(nodes), n1, nodes, argsList);
        ChangedParent(n1, nodes, argsList, node);
        return;
      }
      GrownIsChanged(nodes, nodes, argsList);
    }

    /** BuildExpressionArgument on the comma after the expression: consumed, and an empty last
        argument when ) follows it. */
    method BuildTrailingComma(argsList: nat)
      requires Valid() && !Stopped() && argsList < |nodes| && Cur().token == Token.Comma
      modifies this
      ensures Valid() && read == old(read) + 1
      ensures errors == old(errors) && ScopeKept() && pending == old(pending) && hung == old(hung)
      ensures ChangedOnlyAt(old(nodes), nodes, argsList)
      ensures var closing := LexemAt(lexemes, old(read) + 1).token == Token.ClosePar;
        nodes[argsList].children == old(nodes[argsList].children) + (if closing then [Some(|nodes| - 1)] else [])
        && (closing ==> nodes[|nodes| - 1] == SyntaxNode(NodeKind.CallArgument, LexemAt(lexemes, read), []))
    {
      NextReadAdvances(lexemes, read);
      BuildLastDefaultArg(argsList);
    }

    /** The CallArgument node of BuildExpressionArgument, under the list, holding the expression
        read up to a comma. */
    method BuildArgumentNode(argsList: nat) returns (node: nat)
      requires Valid() && !Stopped() && argsList < |nodes|
      requires Cur().token != Token.Comma && Cur().token != Token.ClosePar
      modifies this
      ensures ExprStep()
      ensures ChangedOnlyAt(old(nodes), nodes, argsList)
      ensures node == |old(nodes)| && node < |nodes|
        && nodes[node].kind == NodeKind.CallArgument && nodes[node].lexem == old(Cur())
        && nodes[argsList].children == old(nodes[argsList].children) + [Some(node)]
      ensures !Stopped() ==> |nodes[node].children| == 1 && old(read) <= read
      decreases |lexemes| + 1 - read, 55
    {
      node := CreateChild(argsList, NodeKind.CallArgument, Cur());
      WithChildChangesOnlyParent(old(nodes) + [nodes[node]], argsList, Some(node));
      ghost var n1 := nodes;
      ghost var op := BuildOptionalExpression(node, Token.Comma);
      ChangedThenChangedAbove(old(nodes), n1, nodes, argsList, node);
    }

    /** BuildLastDefaultArg: after a comma, a ) directly following is one more, empty, argument. */
    method BuildLastDefaultArg(argsList: nat)
      requires Valid() && argsList < |nodes|
      modifies this
      ensures Valid() && read == NextRead(lexemes, old(read))
      ensures Cur().token == Token.ClosePar ==>
        nodes == WithChild(old(nodes) + [SyntaxNode(NodeKind.CallArgument, Cur(), [])], argsList, Some(|old(nodes)|))
      ensures Cur().token != Token.ClosePar ==> nodes == old(nodes)
      ensures errors == old(errors) && ScopeKept() && pending == old(pending) && hung == old(hung)
      ensures ChangedOnlyAt(old(nodes), nodes, argsList)
    {
      NextLexem();
      if Cur().token == Token.ClosePar {
        var empty := CreateChild(argsList, NodeKind.CallArgument, Cur());
        WithChildChangesOnlyParent(old(nodes) + [nodes[empty]], argsList, Some(empty));
      } else {
        GrownIsChanged(nodes, nodes, argsList);
      }
    }

    /** BuildDereference: index accesses first; then at a dot a DereferenceOperation node on it
        over the target so far, followed by a name (any word, keywords included); a name followed
        by ( is a method call, and is not writable; a plain name is, and further accesses may
        follow. A dot without a name after it is IdentifierExpected, and no result. */
    method BuildDereference(target: Option<nat>) returns (r: Option<nat>)
      requires Valid() && !Stopped() && ValidRef(nodes, target)
      modifies this
      ensures ExprStep() && NodesKept() && ValidRef(nodes, r)
      ensures old(Cur()).token != Token.OpenBracket && old(Cur()).token != Token.Dot ==>
        r == target && nodes == old(nodes) && read == old(read) && errors == old(errors)
        && ScopeKept() && pending == old(pending) && hung == old(hung)
      ensures old(Cur()).token == Token.Dot && !IsIdentifier(LexemAt(lexemes, old(read) + 1)) ==>
        r.None? && nodes == old(nodes) + [SyntaxNode(NodeKind.DereferenceOperation, old(Cur()), [target])]
        && errors == old(errors) + [ParseError(IdentifierExpected, old(read) + 1)]
      ensures !Stopped() && old(Cur()).token == Token.Dot && IsIdentifier(LexemAt(lexemes, old(read) + 1)) ==>
        var n := |old(nodes)|;
        n < |nodes| && nodes[n].kind == NodeKind.DereferenceOperation && nodes[n].lexem == old(Cur())
        && |nodes[n].children| == 2 && nodes[n].children[0] == target
      decreases |lexemes| + 1 - read, 68
    {
      var activeTarget := BuildIndexerAccess(target);
      if Stopped() || Cur().token != Token.Dot {
        return activeTarget;
      }
      r := BuildDotAccess(activeTarget);
    }

    /** BuildDereference at a dot: the DereferenceOperation node over the target, then the name. */
    method BuildDotAccess(target: Option<nat>) returns (r: Option<nat>)
      requires Valid() && !Stopped() && ValidRef(nodes, target) && Cur().token == Token.Dot
      modifies this
      ensures ExprStep() && NodesKept() && ValidRef(nodes, r)
      ensures !IsIdentifier(LexemAt(lexemes, old(read) + 1)) ==>
        r.None? && nodes == old(nodes) + [SyntaxNode(NodeKind.DereferenceOperation, old(Cur()), [target])]
        && errors == old(errors) + [ParseError(IdentifierExpected, old(read) + 1)]
      ensures !Stopped() && IsIdentifier(LexemAt(lexemes, old(read) + 1)) ==>
        var n := |old(nodes)|;
        n < |nodes| && nodes[n].kind == NodeKind.DereferenceOperation && nodes[n].lexem == old(Cur())
        && |nodes[n].children| == 2 && nodes[n].children[0] == target
      decreases |lexemes| + 1 - read, 67
    {
      var dotNode := CreateNodeOver(NodeKind.DereferenceOperation, Cur(), target);
      NextLexem();
      if !IsIdentifier(Cur()) {
        AddError(IdentifierExpected);
        return None;
      }
      var identifier := Cur();
      NextLexem();
      ghost var n1 := nodes;
      r := BuildMember(dotNode, identifier);
      GrownThenChangedAbove(old(nodes), n1, nodes, dotNode);
    }

    /** BuildDereference after the name: a name followed by ( is a method call, and is not
        writable; a plain name is. Either becomes the second child of the dot's node, and further
        accesses may follow. */
    method BuildMember(dotNode: nat, identifier: Lexem) returns (r: Option<nat>)
      requires Valid() && !Stopped() && dotNode < |nodes|
      modifies this
      ensures ExprStep() && ValidRef(nodes, r)
      ensures ChangedOnlyAt(old(nodes), nodes, dotNode)
      ensures !Stopped() ==> |nodes[dotNode].children| == |old(nodes[dotNode].children)| + 1
      decreases |lexemes| + 1 - read, 69
    {
      if Cur().token == Token.OpenPar {
        lastDereferenceIsWritable := false;
        var ident := CreateNode(NodeKind.Identifier, identifier);
        var call := BuildCall(Some(ident), NodeKind.MethodCall);
        if Stopped() {
          GrownIsChanged(old(nodes), nodes, dotNode);
          return None;
        }
        GrownThenAdded(old(nodes), nodes, dotNode, call);
        AddChild(dotNode, call);
      } else {
        lastDereferenceIsWritable := true;
        var member := CreateChild(dotNode, NodeKind.Identifier, identifier);
        GrownThenAdded(old(nodes), old(nodes) + [SyntaxNode(NodeKind.Identifier, identifier, [])], dotNode, Some(member));
      }
      ghost var n2 := nodes;
      r := BuildDereference(Some(dotNode));
      ChangedThenGrown(old(nodes), n2, nodes, dotNode);
    }

    /** BuildIndexerAccess: at [ an IndexAccess node on it over the target and one expression up
        to ]; a missing expression is ExpressionSyntax, and no result. The lexeme after the
        expression is consumed whatever it is. */
    method BuildIndexerAccess(target: Option<nat>) returns (r: Option<nat>)
      requires Valid() && !Stopped() && ValidRef(nodes, target)
      modifies this
      ensures ExprStep() && NodesKept() && ValidRef(nodes, r)
      ensures old(Cur()).token != Token.OpenBracket ==>
        r == target && nodes == old(nodes) && read == old(read) && errors == old(errors)
        && ScopeKept() && pending == old(pending) && hung == old(hung)
      ensures old(Cur()).token == Token.OpenBracket ==>
        Heads(nodes, |old(nodes)|, NodeKind.IndexAccess, old(Cur()), [target])
      ensures !Stopped() && old(Cur()).token == Token.OpenBracket && LexemAt(lexemes, old(read) + 1).token == Token.CloseBracket ==>
        r.None? && |errors| == |old(errors)| + 2
        && errors[|old(errors)|] == ParseError(ExpressionExpected, old(read) + 1)
        && errors[|old(errors)| + 1].error == ExpressionSyntax
      decreases |lexemes| + 1 - read, 66
    {
      if Cur().token != Token.OpenBracket {
        return target;
      }
      r := BuildIndexThenDereference(target);
    }

    /** BuildIndexerAccess on [: the index, then what dereferences its result. */
    method BuildIndexThenDereference(target: Option<nat>) returns (r: Option<nat>)
      requires Valid() && !Stopped() && ValidRef(nodes, target) && Cur().token == Token.OpenBracket
      modifies this
      ensures ExprStep() && NodesKept() && ValidRef(nodes, r)
      ensures Heads(nodes, |old(nodes)|, NodeKind.IndexAccess, old(Cur()), [target])
      ensures !Stopped() && LexemAt(lexemes, old(read) + 1).token == Token.CloseBracket ==>
        r.None? && |errors| == |old(errors)| + 2
        && errors[|old(errors)|] == ParseError(ExpressionExpected, old(read) + 1)
        && errors[|old(errors)| + 1].error == ExpressionSyntax
      decreases |lexemes| + 1 - read, 65
    {
      var node, ok := BuildIndex(target);
      if !ok {
        return None;
      }
      NextLexem();
      lastDereferenceIsWritable := true;
      ghost var n1 := nodes;
      r := BuildDereference(Some(node));
      HeadsKept(n1, nodes, node, NodeKind.IndexAccess, old(Cur()), [target]);
    }

    /** BuildIndexerAccess from [ to the end of the index expression: `ok` when it is there. */
    method BuildIndex(target: Option<nat>) returns (node: nat, ok: bool)
      requires Valid() && !Stopped() && ValidRef(nodes, target) && Cur().token == Token.OpenBracket
      modifies this
      ensures ExprStep() && NodesKept() && node == |old(nodes)|
      ensures Heads(nodes, node, NodeKind.IndexAccess, old(Cur()), [target])
      ensures ok ==> !Stopped() && old(read) < read
      ensures !Stopped() && LexemAt(lexemes, old(read) + 1).token == Token.CloseBracket ==>
        !ok && |errors| == |old(errors)| + 2
        && errors[|old(errors)|] == ParseError(ExpressionExpected, old(read) + 1)
        && errors[|old(errors)| + 1].error == ExpressionSyntax
      decreases |lexemes| + 1 - read, 64
    {
      node := CreateNodeOver(NodeKind.IndexAccess, Cur(), target);
      NextLexem();
      NextReadAdvances(lexemes, old(read));
      ghost var n1 := nodes;
      var expression := BuildExpression(node, Token.CloseBracket);
      HeadsKept(n1, nodes, node, NodeKind.IndexAccess, old(Cur()), [target]);
      GrownThenChangedAbove(old(nodes), n1, nodes, node);
      ok := !Stopped() && expression.Some?;
      if !Stopped() && expression.None? {
        AddError(ExpressionSyntax);
      }
    }

    // ---------------------------------------------------------------- expressions

    /** BuildExpression: at the stop token an expression is missing, which is ExpressionExpected
        and no node; otherwise the Or-level expression becomes the parent's last child. */
    method BuildExpression(parent: nat, stop: Token) returns (r: Option<nat>)
      requires Valid() && !Stopped() && parent < |nodes|
      modifies this
      ensures ExprStep() && ValidRef(nodes, r)
      ensures ChangedOnlyAt(old(nodes), nodes, parent)
      ensures old(Cur()).token == stop ==>
        r.None? && nodes == old(nodes) && errors == old(errors) + [ParseError(ExpressionExpected, old(read))]
        && (pending.Some? <==> scope.enableException)
      ensures !Stopped() && old(Cur()).token != stop ==> nodes[parent].children == old(nodes[parent].children) + [r]
      decreases |lexemes| + 1 - read, 54
    {
      if Cur().token == stop {
        AddError(ExpressionExpected);
        GrownIsChanged(nodes, nodes, parent);
        return None;
      }
      ghost var g1, g2, g3;
      r, g1, g2, g3 := BuildLogicalOr();
      if Stopped() {
        GrownIsChanged(old(nodes), nodes, parent);
        return None;
      }
      GrownThenAdded(old(nodes), nodes, parent, r);
      AddChild(parent, r);
    }

    /** BuildExpressionUpTo: BuildExpression, then the stop token is consumed if it is current. */
    method BuildExpressionUpTo(parent: nat, stop: Token) returns (r: Option<nat>, ghost exprEnd: nat)
      requires Valid() && !Stopped() && parent < |nodes|
      modifies this
      ensures ExprStep() && ValidRef(nodes, r)
      ensures ChangedOnlyAt(old(nodes), nodes, parent)
      ensures old(Cur()).token == stop ==>
        r.None? && nodes == old(nodes) && errors == old(errors) + [ParseError(ExpressionExpected, old(read))]
      ensures !Stopped() && old(Cur()).token != stop ==> nodes[parent].children == old(nodes[parent].children) + [r]
      ensures !Stopped() ==> (old(read) <= exprEnd
        && read == (if LexemAt(lexemes, exprEnd).token == stop then NextRead(lexemes, exprEnd) else exprEnd))
      decreases |lexemes| + 1 - read, 56
    {
      r := BuildExpression(parent, stop);
      exprEnd := read;
      if !Stopped() && Cur().token == stop {
        NextLexem();
      }
    }

    /** BuildOptionalExpression: nothing at the stop token; otherwise the Or-level expression
        (`op`) becomes the parent's last child. */
    method BuildOptionalExpression(parent: nat, stop: Token) returns (ghost op: Option<nat>)
      requires Valid() && !Stopped() && parent < |nodes|
      modifies this
      ensures ExprStep()
      ensures ChangedOnlyAt(old(nodes), nodes, parent)
      ensures old(Cur()).token == stop ==>
        nodes == old(nodes) && read == old(read) && errors == old(errors) && ScopeKept()
        && pending == old(pending) && hung == old(hung)
      ensures !Stopped() && old(Cur()).token != stop ==> nodes[parent].children == old(nodes[parent].children) + [op]
      decreases |lexemes| + 1 - read, 54
    {
      op := None;
      if Cur().token == stop {
        GrownIsChanged(nodes, nodes, parent);
        return;
      }
      ghost var g1, g2, g3;
      var expr;
      expr, g1, g2, g3 := BuildLogicalOr();
      op := expr;
      if Stopped() {
        GrownIsChanged(old(nodes), nodes, parent);
        return;
      }
      GrownThenAdded(old(nodes), nodes, parent, expr);
      AddChild(parent, expr);
    }

    /** BuildQuestionOperator: ?( condition , value , value ) makes a TernaryOperator node on the
        ? with the three expressions as its children, parsed under TryParseNode; when that fails,
        or the closing ) is missing (TokenExpected), there is no result. Member and index
        accesses may follow. */
    method BuildQuestionOperator() returns (r: Option<nat>, ghost parsed: bool)
      requires Valid() && !Stopped() && Cur().token == Token.Question
      modifies this
      ensures ExprStep() && NodesKept() && ValidRef(nodes, r)
      ensures |old(nodes)| < |nodes| && nodes[|old(nodes)|].kind == NodeKind.TernaryOperator
        && nodes[|old(nodes)|].lexem == old(Cur())
      ensures !Stopped() && parsed ==> |nodes[|old(nodes)|].children| == 3
      ensures !Stopped() && !parsed ==> r.None?
      decreases |lexemes| + 1 - read, 20
    {
      var node := CreateNode(NodeKind.TernaryOperator, Cur());
      ghost var n1 := nodes;
      var ok;
      ok, parsed := BuildTernaryBody(node);
      GrownThenChangedAbove(old(nodes), n1, nodes, node);
      if !ok {
        return None, parsed;
      }
      r := BuildDereference(Some(node));
    }

    /** BuildQuestionOperator from ( to ): the operands under TryParseNode, each missing
        parenthesis being TokenExpected. `ok` is a complete ?(a, b, c). */
    method BuildTernaryBody(node: nat) returns (ok: bool, ghost parsed: bool)
      requires Valid() && !Stopped() && node < |nodes| && Cur().token == Token.Question
      modifies this
      ensures ExprStep()
      ensures ChangedOnlyAt(old(nodes), nodes, node)
      ensures parsed && !hung ==> |nodes[node].children| == |old(nodes[node].children)| + 3
      ensures ok ==> parsed && !Stopped() && old(read) < read
      decreases |lexemes| + 1 - read, 19
    {
      ok, parsed := false, false;
      var open := NextExpected(Token.OpenPar);
      if !open {
        AddError(TokenExpected([Token.OpenPar]));
        if Stopped() {
          GrownIsChanged(old(nodes), nodes, node);
          return;
        }
      }
      ghost var n2 := nodes;
      var tried := TryTernaryOperands(node);
      parsed := tried;
      if hung || !tried {
        return;
      }
      if Cur().token != Token.ClosePar {
        AddError(TokenExpected([Token.ClosePar]));
        return;
      }
      NextLexem();
      ok := true;
    }

    /** TryParseNode over the operands of ?: false when a missing expression threw. */
    method TryTernaryOperands(node: nat) returns (ok: bool)
      requires Valid() && !Stopped() && node < |nodes|
      modifies this
      ensures Valid() && Grown() && ExprKept() && pending.None?
      ensures ChangedOnlyAt(old(nodes), nodes, node)
      ensures ok && !hung ==> |nodes[node].children| == |old(nodes[node].children)| + 3
      decreases |lexemes| + 1 - read, 57
    {
      var saved := TryBegin();
      BuildTernaryOperands(node);
      ok := TryEnd(saved);
    }

    /** The action BuildQuestionOperator runs under TryParseNode: three expressions, each after
        one lexeme is stepped over, the first two up to a comma and the last up to ). With
        exceptions enabled, a missing expression throws, so a run that returns normally has added
        exactly three children. */
    method BuildTernaryOperands(node: nat)
      requires Valid() && !Stopped() && node < |nodes| && scope.enableException
      modifies this
      ensures Valid() && Grown() && ExprKept()
      ensures ChangedOnlyAt(old(nodes), nodes, node)
      ensures !Stopped() ==> |nodes[node].children| == |old(nodes[node].children)| + 3
      decreases |lexemes| + 1 - read, 56
    {
      BuildTernaryOperand(node, Token.Comma);
      if Stopped() {
        return;
      }
      ghost var n2 := nodes;
      BuildTernaryOperand(node, Token.Comma);
      ChangedTwice(old(nodes), n2, nodes, node);
      if Stopped() {
        return;
      }
      ghost var n3 := nodes;
      BuildTernaryOperand(node, Token.ClosePar);
      ChangedTwice(old(nodes), n3, nodes, node);
    }

    /** One operand of ?: a lexeme stepped over, then an expression up to the stop token, which
        with exceptions enabled throws when it is missing. */
    method BuildTernaryOperand(node: nat, stop: Token)
      requires Valid() && !Stopped() && node < |nodes| && scope.enableException
      modifies this
      ensures Valid() && Grown() && ExprKept()
      ensures ChangedOnlyAt(old(nodes), nodes, node)
      ensures !Stopped() ==> |nodes[node].children| == |old(nodes[node].children)| + 1
      decreases |lexemes| + 1 - read, 55
    {
      NextLexem();
      var e := BuildExpression(node, stop);
    }

    /** BuildNewObjectCreation: New makes a NewObject node on it; then ( starts a constructor by
        name, a name or ExceptionInfo a constructor by type; anything else is IdentifierExpected,
        and no result. */
    method BuildNewObjectCreation() returns (r: Option<nat>)
      requires Valid() && !Stopped() && Cur().token == Token.NewObject
      modifies this
      ensures ExprStep() && NodesKept() && ValidRef(nodes, r)
      ensures |old(nodes)| < |nodes| && nodes[|old(nodes)|].kind == NodeKind.NewObject
        && nodes[|old(nodes)|].lexem == old(Cur())
      ensures var next := LexemAt(lexemes, old(read) + 1);
        next.token != Token.OpenPar && !IsUserSymbol(next) && next.token != Token.ExceptionInfo ==>
          r.None? && errors == old(errors) + [ParseError(IdentifierExpected, old(read) + 1)]
      ensures var next := LexemAt(lexemes, old(read) + 1);
        !Stopped() && (next.token == Token.OpenPar || IsUserSymbol(next) || next.token == Token.ExceptionInfo) ==>
          r == Some(|old(nodes)|)
      decreases |lexemes| + 1 - read, 20
    {
      var node := CreateNode(NodeKind.NewObject, Cur());
      ghost var n1 := nodes;
      NextLexem();
      var ok := BuildConstructor(node);
      GrownThenChangedAbove(old(nodes), n1, nodes, node);
      r := if ok then Some(node) else None;
    }

    /** The constructor part of BuildNewObjectCreation, after New. */
    method BuildConstructor(node: nat) returns (ok: bool)
      requires Valid() && !Stopped() && node < |nodes|
      modifies this
      ensures ExprStep()
      ensures ok <==> old(Cur()).token == Token.OpenPar || IsUserSymbol(old(Cur())) || old(Cur()).token == Token.ExceptionInfo
      ensures ok ==> ChangedOnlyAt(old(nodes), nodes, node)
      ensures !ok ==> nodes == old(nodes) && errors == old(errors) + [ParseError(IdentifierExpected, old(read))]
      decreases |lexemes| + 1 - read, 66
    {
      if Cur().token == Token.OpenPar {
        ghost var passed := NewObjectDynamicConstructor(node);
      } else if IsUserSymbol(Cur()) || Cur().token == Token.ExceptionInfo {
        NewObjectStaticConstructor(node);
      } else {
        AddError(IdentifierExpected);
        return false;
      }
      ok := true;
    }

    /** NewObjectDynamicConstructor: the arguments of New(...); a call that takes no argument
        step, as `New()`, is ExpressionExpected. */
    method NewObjectDynamicConstructor(node: nat) returns (ghost passed: nat)
      requires Valid() && !Stopped() && node < |nodes| && Cur().token == Token.OpenPar
      modifies this
      ensures ExprStep()
      ensures ChangedOnlyAt(old(nodes), nodes, node)
      ensures LexemAt(lexemes, old(read) + 1).token == Token.ClosePar ==>
        errors == old(errors) + [ParseError(ExpressionExpected, old(read) + 2)]
      ensures !Stopped() && passed == 0 ==> |errors| > 0 && errors[|errors| - 1].error == ExpressionExpected
      decreases |lexemes| + 1 - read, 64
    {
      var argsPassed := BuildCallParameters(node);
      passed := argsPassed;
      if !Stopped() && argsPassed < 1 {
        AddError(ExpressionExpected);
        assert errors[|errors| - 1].error == ExpressionExpected;
      }
    }

    /** NewObjectStaticConstructor: the type name becomes an Identifier child and is consumed;
        an argument list may follow. */
    method NewObjectStaticConstructor(node: nat)
      requires Valid() && !Stopped() && node < |nodes| && Cur().token != Token.EndOfText
      modifies this
      ensures ExprStep()
      ensures ChangedOnlyAt(old(nodes), nodes, node)
      ensures |old(nodes)| < |nodes| && nodes[|old(nodes)|] == SyntaxNode(NodeKind.Identifier, old(Cur()), [])
      ensures |nodes[node].children| > |old(nodes[node].children)|
        && nodes[node].children[|old(nodes[node].children)|] == Some(|old(nodes)|)
      ensures LexemAt(lexemes, old(read) + 1).token != Token.OpenPar ==>
        nodes[node].children == old(nodes[node].children) + [Some(|old(nodes)|)] && read == old(read) + 1
        && errors == old(errors)
      decreases |lexemes| + 1 - read, 64
    {
      var ident := CreateChild(node, NodeKind.Identifier, Cur());
      WithChildChangesOnlyParent(old(nodes) + [nodes[ident]], node, Some(ident));
      NextLexem();
      if Cur().token == Token.OpenPar {
        ghost var n1 := nodes;
        var count := BuildCallParameters(node);
        ChangedTwice(old(nodes), n1, nodes, node);
        ChangedParent(n1, nodes, node, ident);
        ChildKept(n1, nodes, node, |old(nodes[node].children)|);
      }
    }

    // ---------------------------------------------------------------- block structure

    /** Only the block state changed. */
    twostate predicate OnlyScope()
      reads this
    {
      read == old(read) && nodes == old(nodes) && errors == old(errors)
      && lastDereferenceIsWritable == old(lastDereferenceIsWritable) && pending == old(pending) && hung == old(hung)
    }

    /** PushContext: the node becomes the current parent. */
    method PushContext(node: nat)
      requires Valid() && node < |nodes|
      modifies this
      ensures Valid() && flags == old(flags) && scope == old(scope).(contexts := old(scope).contexts + [node]) && annotations == old(annotations) && OnlyScope()
    {
      RefBoundPush(scope.contexts, node);
      scope := scope.(contexts := scope.contexts + [node]);
    }

    /** PopContext: the previous parent is current again. */
    method PopContext()
      requires Valid() && |scope.contexts| > 0
      modifies this
      ensures Valid() && flags == old(flags) && scope == old(scope).(contexts := old(scope).contexts[..|old(scope).contexts| - 1]) && annotations == old(annotations) && OnlyScope()
    {
      RefBoundPop(scope.contexts);
      scope := scope.(contexts := scope.contexts[..|scope.contexts| - 1]);
    }

    /** The in-loop flag is set or cleared. */
    method SetLoopScope(inLoop: bool)
      requires Valid()
      modifies this
      ensures Valid() && scope == old(scope) && flags.isInLoopScope == inLoop && flags.isStatementsDefined == old(flags).isStatementsDefined && annotations == old(annotations) && OnlyScope()
    {
      flags := flags.(isInLoopScope := inLoop);
    }

    // ---------------------------------------------------------------- statements

    /** The tokens BuildComplexStructureStatement knows. */
    static const StatementKeywords: set<Token> := {Token.If, Token.For, Token.While, Token.Break, Token.Continue,
      Token.Return, Token.Try, Token.RaiseException, Token.Execute, Token.AddHandler, Token.RemoveHandler}

    /** Where statements are parsed: nothing pending, exceptions disabled (only TryParseNode
        enables them, around expressions), and a current parent. */
    predicate Ready()
      reads this
    {
      Valid() && !Stopped() && !scope.enableException && |scope.contexts| > 0
    }

    /** What a statement keeps: the invariant and growth, no exception pending, and the block
        state but for the flags that statements set: the statements-seen flag, which is only ever
        set, and the in-loop flag. */
    twostate predicate StmtStep()
      reads this
    {
      Valid() && Grown() && pending.None?
      && scope == old(scope) && annotations == old(annotations)
      && (old(flags).isStatementsDefined ==> flags.isStatementsDefined)
    }

    /** BuildCodeBatch: the terminator set is the innermost one while the batch is read, and is
        removed after it. Statements are read until a terminator is current, or until a statement
        is followed by a terminator or an end-of-block token instead of a semicolon; a lone
        semicolon is an empty statement. A turn that leaves the lexer where it was would be
        repeated for ever. */
    method BuildCodeBatch(endTokens: seq<Token>)
      requires Ready()
      modifies this
      ensures StmtStep() && ChangedOnlyAt(old(nodes), nodes, old(CurrentParent()))
      ensures !hung ==> Cur().token in endTokens || Cur().token in endsBlock
      ensures old(Cur()).token in endTokens ==>
        nodes == old(nodes) && read == old(read) && errors == old(errors) && scope == old(scope) && flags == old(flags) && annotations == old(annotations) && !hung
      decreases |lexemes| + 1 - read, 111
    {
      PushStructureToken(endTokens);
      if Cur().token in endTokens {
        PopStructureToken();
        GrownIsChanged(nodes, nodes, CurrentParent());
        return;
      }
      BuildBatchStatements(endTokens);
      PopStructureToken();
    }

    /** The loop of BuildCodeBatch, with its terminator set innermost. */
    method BuildBatchStatements(endTokens: seq<Token>)
      requires Ready() && |scope.tokenStack| > 0
      modifies this
      ensures StmtStep() && ChangedOnlyAt(old(nodes), nodes, old(CurrentParent()))
      ensures !hung ==> Cur().token in endTokens || Cur().token in endsBlock
      decreases |lexemes| + 1 - read, 110
    {
      GrownIsChanged(nodes, nodes, CurrentParent());
      var done := false;
      while !done
        invariant StmtStep() && ChangedOnlyAt(old(nodes), nodes, old(CurrentParent()))
        invariant !done ==> !hung
        invariant done && !hung ==> Cur().token in endTokens || Cur().token in endsBlock
        decreases |lexemes| + 1 - read, if done then 0 else 1
      {
        ghost var n1 := nodes;
        done := BuildBatchTurn(endTokens);
        ChangedTwice(old(nodes), n1, nodes, old(CurrentParent()));
      }
    }

    /** One turn of the loop of BuildCodeBatch: at a terminator the batch is over; a semicolon
        is consumed; otherwise a statement is read. A turn after which the lexer is where it was
        would be repeated for ever. */
    method BuildBatchTurn(endTokens: seq<Token>) returns (done: bool)
      requires Ready() && |scope.tokenStack| > 0
      modifies this
      ensures StmtStep() && ChangedOnlyAt(old(nodes), nodes, old(CurrentParent()))
      ensures |scope.tokenStack| > 0 && |scope.contexts| > 0 && CurrentParent() == old(CurrentParent())
      ensures !done ==> old(read) < read && !hung
      ensures done && !hung ==> Cur().token in endTokens || Cur().token in endsBlock
      decreases |lexemes| + 1 - read, 109
    {
      if Cur().token in endTokens {
        GrownIsChanged(nodes, nodes, CurrentParent());
        return true;
      }
      if Cur().token == Token.Semicolon {
        NextLexem();
        GrownIsChanged(nodes, nodes, CurrentParent());
        return false;
      }
      var before := read;
      done := BuildBatchItem(endTokens);
      if !done && !hung && read == before {
        hung := true;
      }
      done := done || hung;
    }

    /** A turn of BuildCodeBatch at a statement: the statement, then a semicolon is consumed; a
        terminator or an end-of-block token ends the batch; anything else is SemicolonExpected,
        after which the lexer moves on. */
    method BuildBatchItem(endTokens: seq<Token>) returns (finished: bool)
      requires Ready() && |scope.tokenStack| > 0
      modifies this
      ensures StmtStep() && ChangedOnlyAt(old(nodes), nodes, old(CurrentParent()))
      ensures finished ==> Cur().token in endTokens || Cur().token in endsBlock
      decreases |lexemes| + 1 - read, 108
    {
      BuildStatement();
      if hung {
        return false;
      }
      if Cur().token != Token.Semicolon {
        if Cur().token in endTokens || Cur().token in endsBlock {
          return true;
        }
        AddError(SemicolonExpected);
      }
      NextLexem();
      finished := false;
    }

    /** The statement of a turn of BuildCodeBatch: after the check of its first lexeme, a lexeme
        that is not a token starts a simple statement, and any other a structure statement. */
    method BuildStatement()
      requires Ready() && |scope.tokenStack| > 0
      modifies this
      ensures StmtStep() && ChangedOnlyAt(old(nodes), nodes, old(CurrentParent()))
      decreases |lexemes| + 1 - read, 107
    {
      CheckStatementStart();
      if Cur().token == Token.NotAToken {
        BuildSimpleStatement();
      } else {
        BuildComplexStructureStatement();
      }
    }

    /** A statement that starts with neither a word nor the end of text is UnexpectedOperation. */
    method CheckStatementStart()
      requires Ready()
      modifies this
      ensures Ready() && ScopeKept() && nodes == old(nodes) && old(read) <= read
      ensures old(Cur()).lexType != LexemType.Identifier && old(Cur()).token != Token.EndOfText ==>
        errors == old(errors) + [ParseError(UnexpectedOperation, old(read))]
      ensures old(Cur()).lexType == LexemType.Identifier || old(Cur()).token == Token.EndOfText ==>
        errors == old(errors) && read == old(read)
    {
      if Cur().lexType != LexemType.Identifier && Cur().token != Token.EndOfText {
        AddError(UnexpectedOperation);
      }
    }

    /** BuildComplexStructureStatement: the statement its keyword starts. Try, RaiseException,
        Execute, AddHandler and RemoveHandler do nothing in this version; any other token is
        TokenExpected with the innermost terminator set. */
    method BuildComplexStructureStatement()
      requires Ready() && |scope.tokenStack| > 0
      modifies this
      ensures StmtStep() && ChangedOnlyAt(old(nodes), nodes, old(CurrentParent()))
      ensures old(Cur()).token in {Token.Try, Token.RaiseException, Token.Execute, Token.AddHandler, Token.RemoveHandler} ==>
        nodes == old(nodes) && read == old(read) && errors == old(errors) && scope == old(scope) && flags == old(flags) && annotations == old(annotations) && !hung
      ensures old(Cur()).token !in StatementKeywords ==>
        nodes == old(nodes) && errors == old(errors) + [ParseError(TokenExpected(Stops(old(scope).tokenStack)), old(read))]
      decreases |lexemes| + 1 - read, 104
    {
      var t := Cur().token;
      GrownIsChanged(nodes, nodes, CurrentParent());
      if t == Token.If {
        ghost var closeAt := BuildIfStatement();
      } else if t == Token.For {
        BuildForStatement();
      } else if t == Token.While {
        ghost var closeAt := BuildWhileStatement();
      } else if t == Token.Break {
        ghost var at := BuildJumpStatement(NodeKind.BreakStatement, BreakOutsideOfLoop);
      } else if t == Token.Continue {
        ghost var at := BuildJumpStatement(NodeKind.ContinueStatement, ContinueOutsideLoop);
      } else if t == Token.Return {
        BuildReturnStatement();
      } else if t !in StatementKeywords {
        AddError(TokenExpected(Stops(scope.tokenStack)));
      }
    }

    // ---------------------------------------------------------------- blocks

    /** The last child of the node is a BlockEnd node on the lexeme. */
    ghost predicate ClosedOn(node: nat, l: Lexem)
      reads this
    {
      node < |nodes| && |nodes[node].children| > 0
      && var c := nodes[node].children[|nodes[node].children| - 1];
      c.Some? && c.value < |nodes| && nodes[c.value] == SyntaxNode(NodeKind.BlockEnd, l, [])
    }

    /** Only the arena and the lexer position changed. */
    twostate predicate OnlyNodesAndRead()
      reads this
    {
      errors == old(errors) && scope == old(scope) && flags == old(flags) && annotations == old(annotations)
      && lastDereferenceIsWritable == old(lastDereferenceIsWritable) && pending == old(pending) && hung == old(hung)
    }

    /** A BlockEnd child on the current lexeme, which is consumed. */
    method BuildBlockEnd(node: nat)
      requires Valid() && node < |nodes|
      modifies this
      ensures Valid() && OnlyNodesAndRead() && read == NextRead(lexemes, old(read))
      ensures ChangedOnlyAt(old(nodes), nodes, node) && nodes[node].children == old(nodes[node].children) + [Some(|old(nodes)|)]
      ensures ClosedOn(node, old(Cur()))
    {
      var end := CreateChild(node, NodeKind.BlockEnd, Cur());
      WithChildChangesOnlyParent(old(nodes) + [nodes[end]], node, Some(end));
      NextLexem();
    }

    /** BuildBatchWithContext: a CodeBatch child of the context on the current lexeme, which is
        the current parent while BuildCodeBatch reads the batch up to the stop tokens. */
    method BuildBatchWithContext(context: nat, stopTokens: seq<Token>) returns (batch: nat)
      requires Ready() && context < |nodes|
      modifies this
      ensures StmtStep() && ChangedOnlyAt(old(nodes), nodes, context)
      ensures nodes[context].children == old(nodes[context].children) + [Some(batch)]
      ensures batch == |old(nodes)| && batch < |nodes| && nodes[batch].kind == NodeKind.CodeBatch
      ensures !hung ==> Cur().token in stopTokens || Cur().token in endsBlock
      decreases |lexemes| + 1 - read, 112
    {
      batch := CreateChild(context, NodeKind.CodeBatch, Cur());
      WithChildChangesOnlyParent(old(nodes) + [nodes[batch]], context, Some(batch));
      PushContext(batch);
      ghost var n1 := nodes;
      BuildCodeBatch(stopTokens);
      PopContext();
      ChangedThenChangedAbove(old(nodes), n1, nodes, context, batch);
      ChangedParent(n1, nodes, batch, batch);
    }

    // ---------------------------------------------------------------- conditions

    /** A node of the given kind on the current lexeme, under the parent, the lexeme consumed and
        an expression read up to the stop token (the head of a condition or a while loop). */
    method BuildHeaded(parent: nat, kind: NodeKind, stop: Token) returns (node: nat)
      requires Ready() && parent < |nodes| && Cur().token != Token.EndOfText
      modifies this
      ensures StmtStep() && scope == old(scope) && flags == old(flags) && annotations == old(annotations) && old(read) < read
      ensures ChangedOnlyAt(old(nodes), nodes, parent) && nodes[parent].children == old(nodes[parent].children) + [Some(node)]
      ensures node == |old(nodes)| && node < |nodes| && nodes[node].kind == kind && nodes[node].lexem == old(Cur())
      decreases |lexemes| + 1 - read, 90
    {
      node := CreateChild(parent, kind, Cur());
      WithChildChangesOnlyParent(old(nodes) + [nodes[node]], parent, Some(node));
      NextLexem();
      NextReadAdvances(lexemes, old(read));
      ghost var n1 := nodes;
      ghost var exprEnd;
      var expr;
      expr, exprEnd := BuildExpressionUpTo(node, stop);
      ChangedThenChangedAbove(old(nodes), n1, nodes, parent, node);
      ChangedParent(n1, nodes, node, node);
    }

    /** A Condition node on If or ElseIf under the parent, with its expression up to Then and its
        batch up to Else, ElseIf or EndIf. */
    method BuildConditionalBranch(parent: nat) returns (branch: nat)
      requires Ready() && parent < |nodes| && Cur().token != Token.EndOfText
      modifies this
      ensures StmtStep()
      ensures old(read) < read
      ensures ChangedOnlyAt(old(nodes), nodes, parent) && nodes[parent].children == old(nodes[parent].children) + [Some(branch)]
      ensures branch == |old(nodes)| && branch < |nodes| && nodes[branch].kind == NodeKind.Condition
        && nodes[branch].lexem == old(Cur())
      ensures !hung ==> Cur().token in [Token.Else, Token.ElseIf, Token.EndIf] || Cur().token in endsBlock
      decreases |lexemes| + 1 - read, 94
    {
      branch := BuildHeaded(parent, NodeKind.Condition, Token.Then);
      if hung {
        return;
      }
      ghost var n1 := nodes;
      var batch := BuildBatchWithContext(branch, [Token.Else, Token.ElseIf, Token.EndIf]);
      ChangedThenChangedAbove(old(nodes), n1, nodes, parent, branch);
      ChangedParent(n1, nodes, branch, branch);
    }

    /** BuildIfStatement: a Condition node on If under the current parent, with its expression up
        to Then and its batch; a Condition child of it for each ElseIf; a batch after Else; and a
        BlockEnd on the lexeme that closes the statement, EndIf or another end-of-block token,
        which is consumed. */
    method BuildIfStatement() returns (ghost closeAt: nat)
      requires Ready() && Cur().token == Token.If
      modifies this
      ensures StmtStep() && ChangedOnlyAt(old(nodes), nodes, old(CurrentParent()))
      ensures var n := |old(nodes)|;
        n < |nodes| && nodes[old(CurrentParent())].children == old(nodes[CurrentParent()].children) + [Some(n)]
        && nodes[n].kind == NodeKind.Condition && nodes[n].lexem == old(Cur())
      ensures !hung ==> (ClosedOn(|old(nodes)|, LexemAt(lexemes, closeAt)) && read == NextRead(lexemes, closeAt)
        && (LexemAt(lexemes, closeAt).token == Token.EndIf || LexemAt(lexemes, closeAt).token in endsBlock))
      decreases |lexemes| + 1 - read, 100
    {
      closeAt := read;
      var parent := CurrentParent();
      var condition := BuildConditionalBranch(parent);
      if hung {
        return;
      }
      ghost var n1 := nodes;
      closeAt := BuildIfRest(condition);
      ChangedThenChangedAbove(old(nodes), n1, nodes, parent, condition);
      ChangedParent(n1, nodes, condition, condition);
    }

    /** The rest of BuildIfStatement after its first branch. */
    method BuildIfRest(condition: nat) returns (ghost closeAt: nat)
      requires Ready() && condition < |nodes|
      requires Cur().token in [Token.Else, Token.ElseIf, Token.EndIf] || Cur().token in endsBlock
      modifies this
      ensures StmtStep() && ChangedOnlyAt(old(nodes), nodes, condition)
      ensures !hung ==> (ClosedOn(condition, LexemAt(lexemes, closeAt)) && read == NextRead(lexemes, closeAt)
        && (LexemAt(lexemes, closeAt).token == Token.EndIf || LexemAt(lexemes, closeAt).token in endsBlock))
      decreases |lexemes| + 1 - read, 99
    {
      closeAt := read;
      BuildElseIfs(condition);
      if hung {
        return;
      }
      ghost var n1 := nodes;
      BuildElsePart(condition);
      ChangedTwice(old(nodes), n1, nodes, condition);
      if hung {
        return;
      }
      ghost var n2 := nodes;
      closeAt := read;
      BuildBlockEnd(condition);
      ChangedTwice(old(nodes), n2, nodes, condition);
    }

    /** The ElseIf loop of BuildIfStatement: one Condition child of the condition per ElseIf. */
    method BuildElseIfs(condition: nat)
      requires Ready() && condition < |nodes|
      requires Cur().token in [Token.Else, Token.ElseIf, Token.EndIf] || Cur().token in endsBlock
      modifies this
      ensures StmtStep() && ChangedOnlyAt(old(nodes), nodes, condition)
      ensures !hung ==> (Cur().token != Token.ElseIf
        && (Cur().token in [Token.Else, Token.EndIf] || Cur().token in endsBlock))
      decreases |lexemes| + 1 - read, 98
    {
      GrownIsChanged(nodes, nodes, condition);
      while Cur().token == Token.ElseIf
        invariant StmtStep() && !Stopped() && ChangedOnlyAt(old(nodes), nodes, condition)
        invariant Cur().token in [Token.Else, Token.ElseIf, Token.EndIf] || Cur().token in endsBlock
        decreases |lexemes| + 1 - read
      {
        ghost var n1 := nodes;
        var elif := BuildConditionalBranch(condition);
        ChangedTwice(old(nodes), n1, nodes, condition);
        if hung {
          return;
        }
      }
    }

    /** The Else part of BuildIfStatement: after Else, a batch up to EndIf under the condition. */
    method BuildElsePart(condition: nat)
      requires Ready() && condition < |nodes|
      requires Cur().token in [Token.Else, Token.EndIf] || Cur().token in endsBlock
      modifies this
      ensures StmtStep() && ChangedOnlyAt(old(nodes), nodes, condition)
      ensures old(Cur()).token != Token.Else ==>
        nodes == old(nodes) && read == old(read) && errors == old(errors) && scope == old(scope) && flags == old(flags) && annotations == old(annotations) && !hung
      ensures !hung ==> Cur().token == Token.EndIf || Cur().token in endsBlock
      decreases |lexemes| + 1 - read, 98
    {
      if Cur().token != Token.Else {
        GrownIsChanged(nodes, nodes, condition);
        return;
      }
      NextLexem();
      var batch := BuildBatchWithContext(condition, [Token.EndIf]);
    }

    // ---------------------------------------------------------------- loops

    /** Leaving a loop, as written: the in-loop flag is cleared, also when the loop was inside
        another one. */
    method LeaveLoopAsWritten()
      requires Valid()
      modifies this
      ensures Valid() && scope == old(scope) && !flags.isInLoopScope && flags.isStatementsDefined == old(flags).isStatementsDefined && annotations == old(annotations) && OnlyScope()
    {
      SetLoopScope(false);
    }

    /** Leaving a loop, as evidently intended: the flag is what it was before the loop. */
    method LeaveLoop(saved: bool)
      requires Valid()
      modifies this
      ensures Valid() && scope == old(scope) && flags.isInLoopScope == saved && flags.isStatementsDefined == old(flags).isStatementsDefined && annotations == old(annotations) && OnlyScope()
    {
      SetLoopScope(saved);
    }

    /** The in-loop flag once a loop statement is over. */
    function FlagAfterLoop(before: bool): (after: bool)
      ensures corrected ==> after == before
      ensures !corrected ==> !after
    {
      corrected && before
    }

    /** The flag is left as FlagAfterLoop says. */
    method EndLoopScope(saved: bool)
      requires Valid()
      modifies this
      ensures Valid() && scope == old(scope) && flags.isInLoopScope == FlagAfterLoop(saved) && flags.isStatementsDefined == old(flags).isStatementsDefined && annotations == old(annotations) && OnlyScope()
    {
      if corrected {
        LeaveLoop(saved);
      } else {
        LeaveLoopAsWritten();
      }
    }

    /** BuildWhileStatement: a WhileLoop node on While under the current parent, with its
        expression up to Loop, the loop body read with the in-loop flag set, and a BlockEnd. */
    method BuildWhileStatement() returns (ghost closeAt: nat)
      requires Ready() && Cur().token == Token.While
      modifies this
      ensures StmtStep() && ChangedOnlyAt(old(nodes), nodes, old(CurrentParent()))
      ensures flags.isInLoopScope == FlagAfterLoop(old(flags).isInLoopScope)
      ensures var n := |old(nodes)|;
        n < |nodes| && nodes[old(CurrentParent())].children == old(nodes[CurrentParent()].children) + [Some(n)]
        && nodes[n].kind == NodeKind.WhileLoop && nodes[n].lexem == old(Cur())
      ensures !hung && !corrected ==> ClosedOn(|old(nodes)|, Cur()) && (Cur().token == Token.EndLoop || Cur().token in endsBlock)
      ensures !hung && corrected ==> ClosedOn(|old(nodes)|, LexemAt(lexemes, closeAt)) && read == NextRead(lexemes, closeAt)
      decreases |lexemes| + 1 - read, 100
    {
      closeAt := read;
      var saved := flags.isInLoopScope;
      var parent := CurrentParent();
      var loopNode := BuildHeaded(parent, NodeKind.WhileLoop, Token.Loop);
      ghost var n1 := nodes;
      if hung {
        EndLoopScope(saved);
        return;
      }
      closeAt := BuildWhileRest(loopNode, saved);
      ChangedThenChangedAbove(old(nodes), n1, nodes, parent, loopNode);
      ChangedParent(n1, nodes, loopNode, loopNode);
    }

    /** BuildWhileStatement after its head: the body, as written or corrected, then the in-loop
        flag as FlagAfterLoop says. */
    method BuildWhileRest(loopNode: nat, saved: bool) returns (ghost closeAt: nat)
      requires Ready() && loopNode < |nodes|
      modifies this
      ensures StmtStep() && ChangedOnlyAt(old(nodes), nodes, loopNode)
      ensures flags.isInLoopScope == FlagAfterLoop(saved)
      ensures !hung && !corrected ==> ClosedOn(loopNode, Cur()) && (Cur().token == Token.EndLoop || Cur().token in endsBlock)
      ensures !hung && corrected ==> ClosedOn(loopNode, LexemAt(lexemes, closeAt)) && read == NextRead(lexemes, closeAt)
      decreases |lexemes| + 1 - read, 116
    {
      closeAt := read;
      if corrected {
        closeAt := BuildWhileBodyCorrected(loopNode);
      } else {
        BuildWhileBody(loopNode);
      }
      EndLoopScope(saved);
    }

    /** The body of BuildWhileStatement, as written: a CodeBatch up to EndLoop, then a BlockEnd
        on the lexeme that ended it, which is NOT consumed, unlike the closing lexeme of every
        other compound statement: the batch around the loop meets it in place of a semicolon. */
    method BuildWhileBody(loopNode: nat)
      requires Ready() && loopNode < |nodes|
      modifies this
      ensures StmtStep() && ChangedOnlyAt(old(nodes), nodes, loopNode)
      ensures !hung ==> ClosedOn(loopNode, Cur()) && (Cur().token == Token.EndLoop || Cur().token in endsBlock)
      decreases |lexemes| + 1 - read, 115
    {
      SetLoopScope(true);
      var batch := BuildBatchWithContext(loopNode, [Token.EndLoop]);
      if hung {
        return;
      }
      ghost var n1 := nodes;
      var end := CreateChild(loopNode, NodeKind.BlockEnd, Cur());
      WithChildChangesOnlyParent(n1 + [nodes[end]], loopNode, Some(end));
      ChangedTwice(old(nodes), n1, nodes, loopNode);
    }

    /** The body of BuildWhileStatement as evidently intended: the BlockEnd's lexeme is consumed,
        as after the other loops. */
    method BuildWhileBodyCorrected(loopNode: nat) returns (ghost closeAt: nat)
      requires Ready() && loopNode < |nodes|
      modifies this
      ensures StmtStep() && ChangedOnlyAt(old(nodes), nodes, loopNode)
      ensures !hung ==> (ClosedOn(loopNode, LexemAt(lexemes, closeAt)) && read == NextRead(lexemes, closeAt)
        && (LexemAt(lexemes, closeAt).token == Token.EndLoop || LexemAt(lexemes, closeAt).token in endsBlock))
      decreases |lexemes| + 1 - read, 115
    {
      closeAt := BuildLoopBody(loopNode);
    }

    /** A loop body: BuildBatchWithContext up to EndLoop, then a
        BlockEnd on the lexeme that ended it, which is consumed. */
    method BuildLoopBody(loopNode: nat) returns (ghost closeAt: nat)
      requires Ready() && loopNode < |nodes|
      modifies this
      ensures StmtStep() && ChangedOnlyAt(old(nodes), nodes, loopNode)
      ensures |nodes[loopNode].children| > |old(nodes[loopNode].children)|
        && nodes[loopNode].children[|old(nodes[loopNode].children)|] == Some(|old(nodes)|)
        && |old(nodes)| < |nodes| && nodes[|old(nodes)|].kind == NodeKind.CodeBatch
      ensures !hung ==> (|nodes[loopNode].children| == |old(nodes[loopNode].children)| + 2
        && ClosedOn(loopNode, LexemAt(lexemes, closeAt)) && read == NextRead(lexemes, closeAt)
        && (LexemAt(lexemes, closeAt).token == Token.EndLoop || LexemAt(lexemes, closeAt).token in endsBlock))
      decreases |lexemes| + 1 - read, 113
    {
      var batch := BuildBatchWithContext(loopNode, [Token.EndLoop]);
      closeAt := read;
      if hung {
        return;
      }
      ghost var n1 := nodes;
      BuildBlockEnd(loopNode);
      ChangedTwice(old(nodes), n1, nodes, loopNode);
    }

    /** BuildForStatement: after For, Each makes a ForEachLoop node and anything else a ForLoop
        node, on the For lexeme, under the current parent; it is the current parent, with the
        in-loop flag set, while the rest of the statement is read. */
    method BuildForStatement()
      requires Ready() && Cur().token == Token.For
      modifies this
      ensures StmtStep() && ChangedOnlyAt(old(nodes), nodes, old(CurrentParent()))
      ensures flags.isInLoopScope == FlagAfterLoop(old(flags).isInLoopScope)
      ensures var n := |old(nodes)|;
        n < |nodes| && nodes[old(CurrentParent())].children == old(nodes[CurrentParent()].children) + [Some(n)]
        && nodes[n].lexem == old(Cur())
        && nodes[n].kind == (if LexemAt(lexemes, old(read) + 1).token == Token.Each then NodeKind.ForEachLoop else NodeKind.ForLoop)
      decreases |lexemes| + 1 - read, 100
    {
      var lexem := Cur();
      var saved := flags.isInLoopScope;
      NextLexem();
      NextReadAdvances(lexemes, old(read));
      var each := Cur().token == Token.Each;
      var parent := CurrentParent();
      var loopNode := CreateChild(parent, if each then NodeKind.ForEachLoop else NodeKind.ForLoop, lexem);
      WithChildChangesOnlyParent(old(nodes) + [nodes[loopNode]], parent, Some(loopNode));
      ghost var n1 := nodes;
      BuildForBody(loopNode, each, saved);
      ChangedThenChangedAbove(old(nodes), n1, nodes, parent, loopNode);
      ChangedParent(n1, nodes, loopNode, loopNode);
    }

    /** BuildForStatement after the loop node: the loop node is the current parent and the
        in-loop flag is set while the rest of a For Each or a countable For is read. */
    method BuildForBody(loopNode: nat, each: bool, saved: bool)
      requires Ready() && loopNode < |nodes|
      modifies this
      ensures StmtStep() && ChangedOnlyAt(old(nodes), nodes, loopNode)
      ensures flags.isInLoopScope == FlagAfterLoop(saved)
      decreases |lexemes| + 1 - read, 118
    {
      PushContext(loopNode);
      SetLoopScope(true);
      if each {
        BuildForEachStatement(loopNode);
      } else {
        BuildCountableForStatement(loopNode);
      }
      EndLoopScope(saved);
      PopContext();
    }

    /** An error in the head of a For statement: the error, then the body is read all the same
        as a CodeBatch child of the loop. */
    method LoopAfterError(loopNode: nat, e: ErrorKind)
      requires Ready() && loopNode < |nodes|
      modifies this
      ensures StmtStep() && ChangedOnlyAt(old(nodes), nodes, loopNode)
      ensures |errors| > |old(errors)| && errors[|old(errors)|] == ParseError(e, old(read))
      ensures nodes[loopNode].children == old(nodes[loopNode].children) + [Some(|old(nodes)|)]
        && |old(nodes)| < |nodes| && nodes[|old(nodes)|].kind == NodeKind.CodeBatch
      decreases |lexemes| + 1 - read, 113
    {
      AddError(e);
      ghost var e1 := errors;
      var batch := BuildBatchWithContext(loopNode, [Token.EndLoop]);
      assert e1 <= errors by {
        assert errors[..|e1|] == e1;
      }
    }

    /** BuildCountableForStatement: a name, =, the initial value up to To, the limit up to Loop,
        the body and a BlockEnd; a missing name is IdentifierExpected and a missing = is
        TokenExpected, after either of which only the body is read. */
    method BuildCountableForStatement(loopNode: nat)
      requires Ready() && loopNode < |nodes|
      modifies this
      ensures StmtStep() && ChangedOnlyAt(old(nodes), nodes, loopNode)
      ensures !IsUserSymbol(old(Cur())) ==> (|errors| > |old(errors)| && errors[|old(errors)|] == ParseError(IdentifierExpected, old(read))
        && nodes[loopNode].children == old(nodes[loopNode].children) + [Some(|old(nodes)|)])
      ensures IsUserSymbol(old(Cur())) && LexemAt(lexemes, old(read) + 1).token != Token.Equal ==>
        |errors| > |old(errors)| && errors[|old(errors)|] == ParseError(TokenExpected([Token.Equal]), old(read) + 1)
        && nodes[loopNode].children == old(nodes[loopNode].children) + [Some(|old(nodes)|)]
      ensures IsUserSymbol(old(Cur())) && LexemAt(lexemes, old(read) + 1).token == Token.Equal && !hung ==>
        |nodes[loopNode].children| == |old(nodes[loopNode].children)| + 4
        && |old(nodes)| < |nodes| && nodes[|old(nodes)|].kind == NodeKind.ForInitializer
      decreases |lexemes| + 1 - read, 114
    {
      if !IsUserSymbol(Cur()) {
        LoopAfterError(loopNode, IdentifierExpected);
        return;
      }
      var counter := Cur();
      NextLexem();
      NextReadAdvances(lexemes, old(read));
      if Cur().token != Token.Equal {
        LoopAfterError(loopNode, TokenExpected([Token.Equal]));
        return;
      }
      BuildCountableRest(loopNode, counter);
    }

    /** BuildCountableForStatement from =: a ForInitializer node on = over an Identifier on the
        counter and the initial value, a ForLimit node over the limit, the body, and a BlockEnd,
        all children of the loop, in that order. */
    method BuildCountableRest(loopNode: nat, counter: Lexem)
      requires Ready() && loopNode < |nodes| && Cur().token == Token.Equal
      modifies this
      ensures StmtStep() && ChangedOnlyAt(old(nodes), nodes, loopNode)
      ensures |nodes[loopNode].children| > |old(nodes[loopNode].children)|
        && nodes[loopNode].children[|old(nodes[loopNode].children)|] == Some(|old(nodes)|)
        && |old(nodes)| < |nodes| && nodes[|old(nodes)|].kind == NodeKind.ForInitializer
      ensures !hung ==> |nodes[loopNode].children| == |old(nodes[loopNode].children)| + 4
      decreases |lexemes| + 1 - read, 116
    {
      BuildCountableHead(loopNode, counter);
      if hung {
        return;
      }
      ghost var n2 := nodes;
      ghost var closeAt := BuildLoopBody(loopNode);
      ChangedTwice(old(nodes), n2, nodes, loopNode);
      ChangedParent(n2, nodes, loopNode, |old(nodes)|);
    }

    /** The ForInitializer and the ForLimit of a countable For, children of the loop. */
    method BuildCountableHead(loopNode: nat, counter: Lexem)
      requires Ready() && loopNode < |nodes| && Cur().token == Token.Equal
      modifies this
      ensures StmtStep() && scope == old(scope) && flags == old(flags) && annotations == old(annotations) && ChangedOnlyAt(old(nodes), nodes, loopNode)
      ensures |nodes[loopNode].children| > |old(nodes[loopNode].children)|
        && nodes[loopNode].children[|old(nodes[loopNode].children)|] == Some(|old(nodes)|)
        && |old(nodes)| < |nodes| && nodes[|old(nodes)|].kind == NodeKind.ForInitializer
      ensures !hung ==> |nodes[loopNode].children| == |old(nodes[loopNode].children)| + 2
      decreases |lexemes| + 1 - read, 59
    {
      BuildForInitializer(loopNode, counter);
      if hung {
        return;
      }
      ghost var n1 := nodes;
      BuildForLimit(loopNode);
      ChangedTwice(old(nodes), n1, nodes, loopNode);
      ChangedParent(n1, nodes, loopNode, |old(nodes)|);
    }

    /** The ForInitializer of a countable For: on =, which is consumed, with an Identifier child
        on the counter and the expression up to To; it becomes a child of the loop. */
    method BuildForInitializer(loopNode: nat, counter: Lexem)
      requires Ready() && loopNode < |nodes| && Cur().token != Token.EndOfText
      modifies this
      ensures StmtStep() && scope == old(scope) && flags == old(flags) && annotations == old(annotations) && ChangedOnlyAt(old(nodes), nodes, loopNode)
      ensures var n := |old(nodes)|;
        nodes[loopNode].children == old(nodes[loopNode].children) + [Some(n)]
        && Heads(nodes, n, NodeKind.ForInitializer, old(Cur()), [Some(n + 1)])
        && n + 1 < |nodes| && nodes[n + 1] == SyntaxNode(NodeKind.Identifier, counter, [])
      decreases |lexemes| + 1 - read, 58
    {
      var init := BuildInitializerNode(counter);
      AttachGrown(loopNode, init, old(nodes));
    }

    /** The ForInitializer node with its children: the counter and the expression up to To. */
    method BuildInitializerNode(counter: Lexem) returns (init: nat)
      requires Ready() && Cur().token != Token.EndOfText
      modifies this
      ensures StmtStep() && scope == old(scope) && flags == old(flags) && annotations == old(annotations) && old(nodes) <= nodes && init == |old(nodes)|
      ensures Heads(nodes, init, NodeKind.ForInitializer, old(Cur()), [Some(init + 1)])
        && init + 1 < |nodes| && nodes[init + 1] == SyntaxNode(NodeKind.Identifier, counter, [])
      decreases |lexemes| + 1 - read, 57
    {
      ghost var first := Cur();
      init := CreateInitializer(counter);
      ghost var n1 := nodes;
      BuildInitializerExpression(init);
      ChangedParent(n1, nodes, init, init + 1);
      HeadsKept(n1, nodes, init, NodeKind.ForInitializer, first, [Some(init + 1)]);
      GrownThenChangedAbove(old(nodes), n1, nodes, init);
    }

    /** Past the assignment sign, the initial value up to To, as the ForInitializer's next child. */
    method BuildInitializerExpression(init: nat)
      requires Ready() && Cur().token != Token.EndOfText && init < |nodes|
      modifies this
      ensures StmtStep() && scope == old(scope) && flags == old(flags) && annotations == old(annotations)
      ensures ChangedOnlyAt(old(nodes), nodes, init)
      decreases |lexemes| + 1 - read, 56
    {
      NextLexem();
      ghost var exprEnd;
      var expr;
      expr, exprEnd := BuildExpressionUpTo(init, Token.To);
    }

    /** The ForInitializer node on the current lexeme, with an Identifier child on the counter. */
    method CreateInitializer(counter: Lexem) returns (init: nat)
      modifies this
      ensures init == |old(nodes)| && OnlyNodes()
      ensures nodes == old(nodes) + [SyntaxNode(NodeKind.ForInitializer, old(Cur()), [Some(init + 1)]),
                                     SyntaxNode(NodeKind.Identifier, counter, [])]
    {
      init := CreateNode(NodeKind.ForInitializer, Cur());
      ghost var n1 := nodes;
      var ident := CreateChild(init, NodeKind.Identifier, counter);
      ghost var m := n1 + [SyntaxNode(NodeKind.Identifier, counter, [])];
      assert [] + [Some(ident)] == [Some(init + 1)];
      assert nodes == m[init := m[init].(children := [Some(init + 1)])];
    }

    /** The ForLimit of a countable For: on the current lexeme, over the expression up to Loop;
        it becomes a child of the loop. */
    method BuildForLimit(loopNode: nat)
      requires Ready() && loopNode < |nodes|
      modifies this
      ensures StmtStep() && scope == old(scope) && flags == old(flags) && annotations == old(annotations) && ChangedOnlyAt(old(nodes), nodes, loopNode)
      ensures var n := |old(nodes)|;
        nodes[loopNode].children == old(nodes[loopNode].children) + [Some(n)]
        && n < |nodes| && nodes[n].kind == NodeKind.ForLimit && nodes[n].lexem == old(Cur())
      decreases |lexemes| + 1 - read, 58
    {
      var limit := CreateNode(NodeKind.ForLimit, Cur());
      ghost var n1 := nodes;
      ghost var exprEnd;
      var expr;
      expr, exprEnd := BuildExpressionUpTo(limit, Token.Loop);
      ChangedParent(n1, nodes, limit, limit);
      GrownThenAdded(old(nodes), nodes, loopNode, Some(limit));
      AddChild(loopNode, Some(limit));
    }

    /** BuildForEachStatement: after Each, a name as a ForEachVariable child, In, the collection
        under TryParseNode, the body and a BlockEnd; a missing name is IdentifierExpected and a
        missing In is TokenExpected, after either of which only the body is read. */
    method BuildForEachStatement(loopNode: nat)
      requires Ready() && loopNode < |nodes|
      modifies this
      ensures StmtStep() && ChangedOnlyAt(old(nodes), nodes, loopNode)
      ensures var name := LexemAt(lexemes, NextRead(lexemes, old(read)));
        !IsUserSymbol(name) ==> (|errors| > |old(errors)| && errors[|old(errors)|] == ParseError(IdentifierExpected, NextRead(lexemes, old(read)))
        && nodes[loopNode].children == old(nodes[loopNode].children) + [Some(|old(nodes)|)])
      ensures var name := LexemAt(lexemes, NextRead(lexemes, old(read)));
        IsUserSymbol(name) ==> (|nodes[loopNode].children| > |old(nodes[loopNode].children)|
        && nodes[loopNode].children[|old(nodes[loopNode].children)|] == Some(|old(nodes)|)
        && |old(nodes)| < |nodes| && nodes[|old(nodes)|] == SyntaxNode(NodeKind.ForEachVariable, name, []))
      decreases |lexemes| + 1 - read, 114
    {
      NextLexem();
      if !IsUserSymbol(Cur()) {
        LoopAfterError(loopNode, IdentifierExpected);
        return;
      }
      var variable := CreateChild(loopNode, NodeKind.ForEachVariable, Cur());
      WithChildChangesOnlyParent(old(nodes) + [nodes[variable]], loopNode, Some(variable));
      ghost var n1 := nodes;
      NextLexem();
      BuildForEachAfterVariable(loopNode);
      ChangedTwice(old(nodes), n1, nodes, loopNode);
      ChangedParent(n1, nodes, loopNode, variable);
    }

    /** BuildForEachStatement after the variable: In, or TokenExpected and only the body. */
    method BuildForEachAfterVariable(loopNode: nat)
      requires Ready() && loopNode < |nodes|
      modifies this
      ensures StmtStep() && ChangedOnlyAt(old(nodes), nodes, loopNode)
      ensures old(Cur()).token != Token.In ==> (|errors| > |old(errors)|
        && errors[|old(errors)|] == ParseError(TokenExpected([Token.In]), old(read)))
      decreases |lexemes| + 1 - read, 117
    {
      if Cur().token != Token.In {
        LoopAfterError(loopNode, TokenExpected([Token.In]));
        return;
      }
      NextLexem();
      BuildForEachRest(loopNode);
    }

    /** BuildForEachStatement after In: the collection, then the body and a BlockEnd. */
    method BuildForEachRest(loopNode: nat)
      requires Ready() && loopNode < |nodes|
      modifies this
      ensures StmtStep() && ChangedOnlyAt(old(nodes), nodes, loopNode)
      ensures !hung ==> |nodes[loopNode].children| >= |old(nodes[loopNode].children)| + 2
      decreases |lexemes| + 1 - read, 116
    {
      var added := BuildForEachCollection(loopNode);
      if hung {
        return;
      }
      ghost var n1 := nodes;
      ghost var closeAt := BuildLoopBody(loopNode);
      ChangedTwice(old(nodes), n1, nodes, loopNode);
    }

    /** The collection of a For Each, under TryParseNode: a ForEachCollection node on the
        current lexeme over the expression up to Loop, which becomes a child of the loop unless
        the expression threw. */
    method BuildForEachCollection(loopNode: nat) returns (ok: bool)
      requires Ready() && loopNode < |nodes|
      modifies this
      ensures StmtStep() && scope == old(scope) && flags == old(flags) && annotations == old(annotations) && ChangedOnlyAt(old(nodes), nodes, loopNode)
      ensures ok ==> (nodes[loopNode].children == old(nodes[loopNode].children) + [Some(|old(nodes)|)]
        && |old(nodes)| < |nodes| && nodes[|old(nodes)|].kind == NodeKind.ForEachCollection
        && nodes[|old(nodes)|].lexem == old(Cur()))
      ensures !ok ==> nodes[loopNode].children == old(nodes[loopNode].children)
      decreases |lexemes| + 1 - read, 58
    {
      var saved := TryBegin();
      var collection := CreateNode(NodeKind.ForEachCollection, Cur());
      ghost var n1 := nodes;
      ghost var exprEnd;
      var expr;
      expr, exprEnd := BuildExpressionUpTo(collection, Token.Loop);
      ChangedParent(n1, nodes, collection, collection);
      ok := pending.None?;
      if ok {
        GrownThenAdded(old(nodes), nodes, loopNode, Some(collection));
        AddChild(loopNode, Some(collection));
      } else {
        GrownIsChanged(old(nodes), nodes, loopNode);
      }
      var caught := TryEnd(saved);
    }

    // ---------------------------------------------------------------- jumps and returns

    /** BuildBreakStatement and BuildContinueStatement: outside a loop the statement is an error,
        after whose skip the node is made all the same, on the current lexeme, as a child of the
        current parent; the lexeme is consumed. */
    method BuildJumpStatement(kind: NodeKind, outside: ErrorKind) returns (ghost at: nat)
      requires Ready()
      modifies this
      ensures StmtStep() && scope == old(scope) && flags == old(flags) && annotations == old(annotations)
      ensures errors == old(errors) + (if old(flags).isInLoopScope then [] else [ParseError(outside, old(read))])
      ensures at == (if old(flags).isInLoopScope then old(read)
                     else SkipTarget(lexemes, old(read), Stops(old(scope).tokenStack), beginsStatement))
      ensures nodes == WithChild(old(nodes) + [SyntaxNode(kind, LexemAt(lexemes, at), [])], old(CurrentParent()), Some(|old(nodes)|))
      ensures read == NextRead(lexemes, at)
      ensures ChangedOnlyAt(old(nodes), nodes, old(CurrentParent()))
      decreases |lexemes| + 1 - read, 100
    {
      if !flags.isInLoopScope {
        AddError(outside);
      }
      at := read;
      var parent := CurrentParent();
      var node := CreateChild(parent, kind, Cur());
      GrownThenAdded(old(nodes), old(nodes) + [SyntaxNode(kind, LexemAt(lexemes, at), [])], parent, Some(node));
      NextLexem();
    }

    /** Whether `t`, after Return, means that no value follows. */
    predicate NoReturnValue(t: Token)
      reads this
    {
      t == Token.Semicolon || t in endsBlock
    }

    /** BuildReturnStatement: a ReturnStatement node on Return, appended to the current parent
        once its value is read. In a function a value must follow (FuncEmptyReturnValue), in a
        procedure none may (ProcReturnsAValue), and outside a method there is no Return
        (ReturnOutsideOfMethod). */
    method BuildReturnStatement()
      requires Ready() && Cur().token == Token.Return
      modifies this
      ensures StmtStep() && scope == old(scope) && flags == old(flags) && annotations == old(annotations) && ChangedOnlyAt(old(nodes), nodes, old(CurrentParent()))
      ensures |old(nodes)| < |nodes| && nodes[|old(nodes)|].kind == NodeKind.ReturnStatement
        && nodes[|old(nodes)|].lexem == old(Cur())
      ensures !hung ==> nodes[old(CurrentParent())].children == old(nodes[CurrentParent()].children) + [Some(|old(nodes)|)]
      ensures var next := NextRead(lexemes, old(read));
        if old(scope).isInFunctionScope then
          (NoReturnValue(LexemAt(lexemes, next).token) ==>
             errors == old(errors) + [ParseError(FuncEmptyReturnValue, next)] && nodes[|old(nodes)|].children == [])
          && (!NoReturnValue(LexemAt(lexemes, next).token) && !hung ==> |nodes[|old(nodes)|].children| == 1)
        else if old(scope).inMethodScope then
          errors == old(errors) + (if NoReturnValue(LexemAt(lexemes, next).token) then [] else [ParseError(ProcReturnsAValue, next)])
          && nodes[|old(nodes)|].children == []
        else
          errors == old(errors) + [ParseError(ReturnOutsideOfMethod, old(read))] && nodes[|old(nodes)|].children == []
      decreases |lexemes| + 1 - read, 100
    {
      var returnNode := CreateNode(NodeKind.ReturnStatement, Cur());
      ghost var n1 := nodes;
      BuildReturnValue(returnNode);
      if hung {
        GrownThenChangedAbove(old(nodes), n1, nodes, returnNode);
        GrownIsChanged(old(nodes), nodes, old(CurrentParent()));
        return;
      }
      ghost var n2 := nodes;
      GrownThenChangedAbove(old(nodes), n1, nodes, returnNode);
      ChangedParent(n1, nodes, returnNode, returnNode);
      GrownThenAdded(old(nodes), nodes, CurrentParent(), Some(returnNode));
      AddChild(CurrentParent(), Some(returnNode));
      assert nodes[returnNode] == n2[returnNode];
    }

    /** What BuildReturnStatement reads after Return, into the return node. */
    method BuildReturnValue(returnNode: nat)
      requires Ready() && returnNode < |nodes| && Cur().token == Token.Return
      modifies this
      ensures StmtStep() && scope == old(scope) && flags == old(flags) && annotations == old(annotations) && ChangedOnlyAt(old(nodes), nodes, returnNode)
      ensures var next := NextRead(lexemes, old(read));
        if old(scope).isInFunctionScope then
          (NoReturnValue(LexemAt(lexemes, next).token) ==>
             errors == old(errors) + [ParseError(FuncEmptyReturnValue, next)] && nodes == old(nodes))
          && (!NoReturnValue(LexemAt(lexemes, next).token) && !hung ==>
             |nodes[returnNode].children| == |old(nodes[returnNode].children)| + 1)
        else if old(scope).inMethodScope then
          errors == old(errors) + (if NoReturnValue(LexemAt(lexemes, next).token) then [] else [ParseError(ProcReturnsAValue, next)])
          && nodes == old(nodes)
        else
          errors == old(errors) + [ParseError(ReturnOutsideOfMethod, old(read))] && nodes == old(nodes)
      decreases |lexemes| + 1 - read, 98
    {
      if scope.isInFunctionScope {
        NextLexem();
        if NoReturnValue(Cur().token) {
          AddError(FuncEmptyReturnValue);
          GrownIsChanged(nodes, nodes, returnNode);
        } else {
          var value := BuildExpression(returnNode, Token.Semicolon);
        }
      } else if scope.inMethodScope {
        NextLexem();
        if !NoReturnValue(Cur().token) {
          AddError(ProcReturnsAValue);
        }
        GrownIsChanged(nodes, nodes, returnNode);
      } else {
        AddError(ReturnOutsideOfMethod);
        GrownIsChanged(nodes, nodes, returnNode);
      }
    }

    // ---------------------------------------------------------------- simple statements

    /** BuildSimpleStatement: statements have been seen; the assignment or call is read under
        TryParseNode, so that an error inside it ends the statement. */
    method BuildSimpleStatement()
      requires Ready() && Cur().token == Token.NotAToken
      modifies this
      ensures Valid() && Grown() && pending.None? && scope == old(scope) && flags.isStatementsDefined && flags.isInLoopScope == old(flags).isInLoopScope && annotations == old(annotations)
      ensures ChangedOnlyAt(old(nodes), nodes, old(CurrentParent()))
      ensures var next := LexemAt(lexemes, old(read) + 1).token;
        next != Token.OpenPar && next != Token.OpenBracket && next != Token.Dot && next != Token.Equal ==>
          nodes == WithChild(old(nodes) + [SyntaxNode(NodeKind.Identifier, old(Cur()), [])], old(CurrentParent()), Some(|old(nodes)|))
          && read == old(read) + 1 && errors == old(errors)
      decreases |lexemes| + 1 - read, 100
    {
      flags := flags.(isStatementsDefined := true);
      var saved := TryBegin();
      BuildAssignment(CurrentParent());
      var ok := TryEnd(saved);
    }

    /** BuildAssignment: a global call or member access; followed by = it is the target of an
        Assignment node on the =, which must be writable (ExpressionSyntax otherwise); otherwise
        it is a statement of its own. Either becomes the batch's last child. */
    method BuildAssignment(batch: nat)
      requires Valid() && !Stopped() && batch < |nodes| && Cur().token == Token.NotAToken
      modifies this
      ensures ExprStep() && ChangedOnlyAt(old(nodes), nodes, batch)
      ensures var next := LexemAt(lexemes, old(read) + 1).token;
        next != Token.OpenPar && next != Token.OpenBracket && next != Token.Dot && next != Token.Equal ==>
          nodes == WithChild(old(nodes) + [SyntaxNode(NodeKind.Identifier, old(Cur()), [])], batch, Some(|old(nodes)|))
          && read == old(read) + 1 && errors == old(errors) && !Stopped()
      decreases |lexemes| + 1 - read, 96
    {
      var call := BuildGlobalCall();
      if Stopped() {
        GrownIsChanged(old(nodes), nodes, batch);
        return;
      }
      GrownIsChanged(old(nodes), nodes, batch);
      ghost var n1 := nodes;
      BuildAssignmentRest(batch, call);
      ChangedTwice(old(nodes), n1, nodes, batch);
    }

    /** BuildAssignment after the call: at =, an Assignment node under the batch over the call
        and the expression, if the call is writable, and ExpressionSyntax if not; otherwise the
        call itself joins the batch. */
    method BuildAssignmentRest(batch: nat, call: Option<nat>)
      requires Valid() && !Stopped() && batch < |nodes|
      modifies this
      ensures ExprStep() && ChangedOnlyAt(old(nodes), nodes, batch)
      ensures old(Cur()).token != Token.Equal ==>
        nodes == WithChild(old(nodes), batch, call) && read == old(read) && errors == old(errors) && !Stopped()
      ensures old(Cur()).token == Token.Equal && !old(lastDereferenceIsWritable) ==>
        nodes == old(nodes) && errors == old(errors) + [ParseError(ExpressionSyntax, old(read))]
      ensures old(Cur()).token == Token.Equal && old(lastDereferenceIsWritable) ==>
        nodes[batch].children == old(nodes[batch].children) + [Some(|old(nodes)|)]
        && |old(nodes)| < |nodes| && nodes[|old(nodes)|].kind == NodeKind.Assignment && nodes[|old(nodes)|].lexem == old(Cur())
        && |nodes[|old(nodes)|].children| > 0 && nodes[|old(nodes)|].children[0] == call
        && (!Stopped() && LexemAt(lexemes, old(read) + 1).token != Token.Semicolon ==> |nodes[|old(nodes)|].children| == 2)
      decreases |lexemes| + 1 - read, 95
    {
      if Cur().token != Token.Equal {
        AddChild(batch, call);
        WithChildChangesOnlyParent(old(nodes), batch, call);
        return;
      }
      if !lastDereferenceIsWritable {
        AddError(ExpressionSyntax);
        GrownIsChanged(nodes, nodes, batch);
        return;
      }
      BuildAssignmentNode(batch, call);
    }

    /** The Assignment node of BuildAssignment, on =, under the batch: the target, then the
        value up to a semicolon. */
    method BuildAssignmentNode(batch: nat, call: Option<nat>)
      requires Valid() && !Stopped() && batch < |nodes| && Cur().token == Token.Equal
      modifies this
      ensures ExprStep() && ChangedOnlyAt(old(nodes), nodes, batch)
      ensures nodes[batch].children == old(nodes[batch].children) + [Some(|old(nodes)|)]
        && |old(nodes)| < |nodes| && nodes[|old(nodes)|].kind == NodeKind.Assignment && nodes[|old(nodes)|].lexem == old(Cur())
        && |nodes[|old(nodes)|].children| > 0 && nodes[|old(nodes)|].children[0] == call
      ensures !Stopped() && LexemAt(lexemes, old(read) + 1).token != Token.Semicolon ==>
        |nodes[|old(nodes)|].children| == 2
      decreases |lexemes| + 1 - read, 94
    {
      var node := CreateChild(batch, NodeKind.Assignment, Cur());
      ghost var n0 := nodes;
      WithChildChangesOnlyParent(old(nodes) + [nodes[node]], batch, Some(node));
      AddChild(node, call);
      WithChildChangesOnlyParent(n0, node, call);
      ChangedThenChangedAbove(old(nodes), n0, nodes, batch, node);
      ghost var n1 := nodes;
      assert nodes[node].children == [call];
      BuildAssignedValue(node);
      ChangedThenChangedAbove(old(nodes), n1, nodes, batch, node);
      ChangedParent(n1, nodes, node, node);
    }

    /** The value of an assignment: after =, the expression up to a semicolon. */
    method BuildAssignedValue(node: nat)
      requires Valid() && !Stopped() && node < |nodes| && Cur().token == Token.Equal
      modifies this
      ensures ExprStep() && ChangedOnlyAt(old(nodes), nodes, node)
      ensures !Stopped() && LexemAt(lexemes, old(read) + 1).token != Token.Semicolon ==>
        |nodes[node].children| == |old(nodes[node].children)| + 1
      decreases |lexemes| + 1 - read, 93
    {
      NextLexem();
      NextReadAdvances(lexemes, old(read));
      var value := BuildExpression(node, Token.Semicolon);
    }

    // ---------------------------------------------------------------- annotations

    /** What a step of the module's sections keeps: the invariant and growth, no exception
        pending, the context and terminator stacks, the exception flag and the methods-seen flag. */
    twostate predicate SectionStep()
      reads this
    {
      Valid() && Grown() && pending.None?
      && scope.contexts == old(scope.contexts) && scope.tokenStack == old(scope.tokenStack)
      && scope.enableException == old(scope.enableException) && scope.isMethodsDefined == old(scope.isMethodsDefined)
    }

    /** Where annotations and the parts of a definition are read: nothing pending, and exceptions
        disabled. */
    predicate Plain()
      reads this
    {
      Valid() && !Stopped() && !scope.enableException
    }

    /** ApplyAnnotations: the pending annotations become the node's last children, in the order in
        which they were read, and none is pending any more. */
    method ApplyAnnotations(node: nat)
      requires Valid() && node < |nodes|
      modifies this
      ensures Valid() && scope == old(scope) && flags == old(flags) && annotations == []
      ensures nodes == WithChildren(old(nodes), node, Refs(old(annotations)))
      ensures ChangedOnlyAt(old(nodes), nodes, node)
      ensures read == old(read) && errors == old(errors) && lastDereferenceIsWritable == old(lastDereferenceIsWritable)
      ensures pending == old(pending) && hung == old(hung)
    {
      var applied := annotations;
      WithChildrenStep(nodes, node, [], None);
      for i := 0 to |applied|
        invariant nodes == WithChildren(old(nodes), node, Refs(applied[..i]))
        invariant OnlyNodes()
      {
        assert applied[..i + 1][..i] == applied[..i];
        WithChildrenStep(old(nodes), node, Refs(applied[..i]), Some(applied[i]));
        AddChild(node, Some(applied[i]));
      }
      assert applied[..|applied|] == applied;
      annotations := [];
      assert nodes[..|old(nodes)|] == nodes;
    }

    /** The pending annotations from `from` on are Annotation nodes made after the first `base`
        nodes. */
    ghost predicate NewAnnotations(from: nat, base: nat)
      reads this
    {
      forall i :: from <= i < |annotations| ==>
        base <= annotations[i] < |nodes| && nodes[annotations[i]].kind == NodeKind.Annotation
    }

    /** BuildAnnotations: every annotation lexeme of a row becomes a pending Annotation node, in no
        parent yet; an opening parenthesis after one opens its parameter list. */
    method BuildAnnotations()
      requires Plain()
      modifies this
      ensures Valid() && Grown() && NodesKept() && pending.None? && !hung
      ensures scope == old(scope) && flags == old(flags) && old(annotations) <= annotations
      ensures lastDereferenceIsWritable == old(lastDereferenceIsWritable)
      ensures NewAnnotations(|old(annotations)|, |old(nodes)|) && Cur().lexType != LexemType.Annotation
      ensures old(Cur()).lexType != LexemType.Annotation ==>
        nodes == old(nodes) && read == old(read) && errors == old(errors) && scope == old(scope) && flags == old(flags) && annotations == old(annotations)
      ensures old(Cur()).lexType == LexemType.Annotation ==>
        |old(annotations)| < |annotations|
        && Heads(nodes, annotations[|old(annotations)|], NodeKind.Annotation, old(Cur()), [])
    {
      if Cur().lexType != LexemType.Annotation {
        return;
      }
      var node := BuildAnnotation();
      ghost var n1 := nodes;
      BuildMoreAnnotations(|old(annotations)|, |old(nodes)|);
      HeadsKept(n1, nodes, node, NodeKind.Annotation, old(Cur()), []);
    }

    /** The loop of BuildAnnotations, once an annotation was read: the pending annotations from
        `from` on stay Annotation nodes made after the first `base` nodes. */
    method BuildMoreAnnotations(ghost from: nat, ghost base: nat)
      requires Plain() && NewAnnotations(from, base) && base <= |nodes|
      modifies this
      ensures Valid() && Grown() && NodesKept() && pending.None? && !hung
      ensures scope == old(scope) && flags == old(flags) && old(annotations) <= annotations
      ensures lastDereferenceIsWritable == old(lastDereferenceIsWritable)
      ensures NewAnnotations(from, base) && Cur().lexType != LexemType.Annotation
    {
      while Cur().lexType == LexemType.Annotation
        invariant Valid() && Grown() && NodesKept() && pending.None? && !hung
        invariant scope == old(scope) && flags == old(flags) && old(annotations) <= annotations
        invariant lastDereferenceIsWritable == old(lastDereferenceIsWritable)
        invariant NewAnnotations(from, base)
        decreases |lexemes| + 1 - read
      {
        ghost var n1 := nodes;
        var node := BuildAnnotation();
        assert nodes[..|n1|] == n1;
      }
    }

    /** One turn of BuildAnnotations: a pending Annotation node on the current lexeme, which is
        consumed, and its parameters if an opening parenthesis follows. */
    method BuildAnnotation() returns (node: nat)
      requires Plain() && Cur().lexType == LexemType.Annotation
      modifies this
      ensures Valid() && Grown() && NodesKept() && pending.None? && !hung && old(read) < read
      ensures scope == old(scope) && flags == old(flags) && annotations == old(annotations) + [node]
      ensures lastDereferenceIsWritable == old(lastDereferenceIsWritable)
      ensures node == |old(nodes)| && Heads(nodes, node, NodeKind.Annotation, old(Cur()), [])
    {
      node := CreateNode(NodeKind.Annotation, Cur());
      RefBoundPush(annotations, node);
      annotations := annotations + [node];
      NextLexem();
      if Cur().token == Token.OpenPar {
        NextLexem();
        ghost var n1 := nodes;
        BuildAnnotationParameters(node);
        GrownThenChangedAbove(old(nodes), n1, nodes, node);
        ChangedParent(n1, nodes, node, node);
      }
    }

    /** BuildAnnotationParameters: the parameters of the annotation, separated by commas, up to a
        closing parenthesis, which is consumed; a parameter in error or the end of text ends the
        list; any other lexeme after a parameter is UnexpectedOperation, and the list goes on. */
    method BuildAnnotationParameters(annotation: nat)
      requires Plain() && annotation < |nodes|
      modifies this
      ensures Valid() && Grown() && ScopeKept() && pending.None? && !hung
      ensures ChangedOnlyAt(old(nodes), nodes, annotation)
      ensures ChildrenOfKind(nodes, annotation, |old(nodes[annotation].children)|, NodeKind.AnnotationParameter)
    {
      GrownIsChanged(nodes, nodes, annotation);
      var stop := false;
      while !stop && Cur().token != Token.EndOfText
        invariant Valid() && Grown() && ScopeKept() && pending.None? && !hung
        invariant ChangedOnlyAt(old(nodes), nodes, annotation)
        invariant ChildrenOfKind(nodes, annotation, |old(nodes[annotation].children)|, NodeKind.AnnotationParameter)
        decreases |lexemes| + 1 - read, if stop then 0 else 1
      {
        ghost var n1 := nodes;
        stop := BuildAnnotationParamTurn(annotation);
        ChangedTwice(old(nodes), n1, nodes, annotation);
        ChildrenOfKindKept(n1, nodes, annotation, |old(nodes[annotation].children)|, NodeKind.AnnotationParameter);
      }
    }

    /** One turn of BuildAnnotationParameters: a parameter; then a comma goes on to the next and a
        closing parenthesis ends the list, both consumed; a parameter in error ends the list. */
    method BuildAnnotationParamTurn(annotation: nat) returns (stop: bool)
      requires Plain() && annotation < |nodes|
      modifies this
      ensures Valid() && Grown() && ScopeKept() && pending.None? && !hung
      ensures ChangedOnlyAt(old(nodes), nodes, annotation)
      ensures nodes[annotation].children == old(nodes[annotation].children) + [Some(|old(nodes)|)]
      ensures Heads(nodes, |old(nodes)|, NodeKind.AnnotationParameter, old(Cur()), [])
      ensures !stop ==> old(read) < read
    {
      var ok := BuildAnnotationParameter(annotation);
      if !ok {
        return true;
      }
      if Cur().token == Token.Comma {
        NextLexem();
        return false;
      }
      if Cur().token == Token.ClosePar {
        NextLexem();
        return true;
      }
      AddError(UnexpectedOperation);
      stop := false;
    }

    /** BuildAnnotationParameter: an AnnotationParameter child of the annotation on the current
        lexeme, with its content. Whether it succeeded. */
    method BuildAnnotationParameter(annotation: nat) returns (ok: bool)
      requires Plain() && annotation < |nodes|
      modifies this
      ensures Valid() && Grown() && ScopeKept() && pending.None? && !hung
      ensures ChangedOnlyAt(old(nodes), nodes, annotation)
      ensures nodes[annotation].children == old(nodes[annotation].children) + [Some(|old(nodes)|)]
      ensures Heads(nodes, |old(nodes)|, NodeKind.AnnotationParameter, old(Cur()), [])
      ensures ok ==> old(read) < read
      ensures !IsIdentifier(old(Cur())) && !IsLiteral(old(Cur())) ==>
        !ok && errors == old(errors) + [ParseError(LiteralExpected, old(read))]
    {
      var node := CreateChild(annotation, NodeKind.AnnotationParameter, Cur());
      WithChildChangesOnlyParent(old(nodes) + [nodes[node]], annotation, Some(node));
      ghost var n1 := nodes;
      ok := BuildAnnotationParamContent(node);
      ChangedThenChangedAbove(old(nodes), n1, nodes, annotation, node);
      ChangedParent(n1, nodes, node, node);
    }

    /** The content of an annotation parameter: a word is its name, an AnnotationParameterName
        child, which is consumed, and an = after it introduces the value; any other lexeme is the
        value. */
    method BuildAnnotationParamContent(param: nat) returns (ok: bool)
      requires Plain() && param < |nodes|
      modifies this
      ensures Valid() && Grown() && ScopeKept() && pending.None? && !hung
      ensures ChangedOnlyAt(old(nodes), nodes, param)
      ensures ok ==> old(read) < read
      ensures IsIdentifier(old(Cur())) ==>
        |old(nodes)| < |nodes| && nodes[|old(nodes)|] == SyntaxNode(NodeKind.AnnotationParameterName, old(Cur()), [])
        && |old(nodes[param].children)| < |nodes[param].children|
        && nodes[param].children[|old(nodes[param].children)|] == Some(|old(nodes)|)
      ensures IsIdentifier(old(Cur())) && LexemAt(lexemes, old(read) + 1).token != Token.Equal ==>
        ok && read == old(read) + 1 && errors == old(errors)
        && nodes == WithChild(old(nodes) + [SyntaxNode(NodeKind.AnnotationParameterName, old(Cur()), [])], param, Some(|old(nodes)|))
      ensures !IsIdentifier(old(Cur())) ==>
        (ok <==> IsLiteral(old(Cur())))
        && (ok ==> (errors == old(errors)
                    && nodes == WithChild(old(nodes) + [SyntaxNode(NodeKind.AnnotationParameterValue, old(Cur()), [])], param, Some(|old(nodes)|))))
        && (!ok ==> nodes == old(nodes) && errors == old(errors) + [ParseError(LiteralExpected, old(read))])
    {
      if !IsIdentifier(Cur()) {
        ok := BuildAnnotationParamValue(param);
        return;
      }
      var name := CreateChild(param, NodeKind.AnnotationParameterName, Cur());
      WithChildChangesOnlyParent(old(nodes) + [nodes[name]], param, Some(name));
      NextLexem();
      ok := true;
      if Cur().token == Token.Equal {
        NextLexem();
        ghost var n1 := nodes;
        ok := BuildAnnotationParamValue(param);
        ChangedTwice(old(nodes), n1, nodes, param);
        ChangedParent(n1, nodes, param, name);
      }
    }

    /** BuildAnnotationParamValue: a literal is an AnnotationParameterValue child of the
        parameter and is consumed; anything else is LiteralExpected. */
    method BuildAnnotationParamValue(param: nat) returns (ok: bool)
      requires Plain() && param < |nodes|
      modifies this
      ensures Valid() && Grown() && ScopeKept() && pending.None? && !hung
      ensures ChangedOnlyAt(old(nodes), nodes, param)
      ensures ok <==> IsLiteral(old(Cur()))
      ensures ok ==>
        read == old(read) + 1 && errors == old(errors)
        && nodes == WithChild(old(nodes) + [SyntaxNode(NodeKind.AnnotationParameterValue, old(Cur()), [])], param, Some(|old(nodes)|))
      ensures !ok ==> nodes == old(nodes) && errors == old(errors) + [ParseError(LiteralExpected, old(read))]
    {
      if IsLiteral(Cur()) {
        var value := CreateChild(param, NodeKind.AnnotationParameterValue, Cur());
        WithChildChangesOnlyParent(old(nodes) + [nodes[value]], param, Some(value));
        NextLexem();
        ok := true;
      } else {
        AddError(LiteralExpected);
        GrownIsChanged(nodes, nodes, param);
        ok := false;
      }
    }

    // ---------------------------------------------------------------- variables

    /** A variable definition comes too late: inside a method after its statements, or in the
        module after its methods. */
    predicate LateDefinition()
      reads this
    {
      if scope.inMethodScope then flags.isStatementsDefined else scope.isMethodsDefined
    }

    /** BuildVariableSection: at Перем or an annotation, a VariablesSection node on the current
        lexeme is the current parent while annotations and definitions are read; it becomes the
        last child of the old parent at the first definition, and stays out of the tree if there
        is none. */
    method BuildVariableSection()
      requires Ready()
      modifies this
      ensures Valid() && Grown() && pending.None? && !hung && ChangedOnlyAt(old(nodes), nodes, old(CurrentParent()))
      ensures scope == old(scope) && flags == old(flags) && lastDereferenceIsWritable == old(lastDereferenceIsWritable)
      ensures Cur().token != Token.VarDef && Cur().lexType != LexemType.Annotation
      ensures old(Cur()).token != Token.VarDef && old(Cur()).lexType != LexemType.Annotation ==>
        nodes == old(nodes) && read == old(read) && errors == old(errors) && scope == old(scope) && flags == old(flags) && annotations == old(annotations)
      ensures old(Cur()).token == Token.VarDef || old(Cur()).lexType == LexemType.Annotation ==>
        Heads(nodes, |old(nodes)|, NodeKind.VariablesSection, old(Cur()), [])
        && (nodes[old(CurrentParent())].children == old(nodes[CurrentParent()].children)
            || nodes[old(CurrentParent())].children == old(nodes[CurrentParent()].children) + [Some(|old(nodes)|)])
      ensures old(Cur()).token == Token.VarDef && old(Cur()).lexType != LexemType.Annotation ==>
        nodes[old(CurrentParent())].children == old(nodes[CurrentParent()].children) + [Some(|old(nodes)|)]
    {
      if Cur().token != Token.VarDef && Cur().lexType != LexemType.Annotation {
        GrownIsChanged(nodes, nodes, CurrentParent());
        return;
      }
      var parent := CurrentParent();
      var section := CreateNode(NodeKind.VariablesSection, Cur());
      PushContext(section);
      BuildVariableItems(parent, section, old(nodes));
      PopContext();
    }

    /** The loop of BuildVariableSection, with the section node made after the nodes of `base` as
        the current parent: annotations, then a definition at Перем, the first of which makes the
        section the last child of its parent; anything else ends the loop. */
    method BuildVariableItems(parent: nat, section: nat, ghost base: seq<SyntaxNode>)
      requires Ready() && CurrentParent() == section && parent < |base| && section == |base|
      requires |nodes| == |base| + 1 && base <= nodes && nodes[section].kind == NodeKind.VariablesSection
      modifies this
      ensures Valid() && Grown() && pending.None? && !hung && ChangedOnlyAt(base, nodes, parent)
      ensures scope == old(scope) && flags == old(flags) && lastDereferenceIsWritable == old(lastDereferenceIsWritable)
      ensures Cur().token != Token.VarDef && Cur().lexType != LexemType.Annotation
      ensures section < |nodes| && nodes[section].kind == NodeKind.VariablesSection && nodes[section].lexem == old(nodes[section].lexem)
      ensures nodes[parent].children == base[parent].children || nodes[parent].children == base[parent].children + [Some(section)]
      ensures old(Cur()).token == Token.VarDef && old(Cur()).lexType != LexemType.Annotation ==>
        nodes[parent].children == base[parent].children + [Some(section)]
    {
      GrownIsChanged(base, nodes, parent);
      var hasVars, done := false, false;
      while !done
        invariant Ready() && Grown() && ChangedOnlyAt(base, nodes, parent) && CurrentParent() == section
        invariant scope == old(scope) && flags == old(flags) && lastDereferenceIsWritable == old(lastDereferenceIsWritable)
        invariant section < |nodes| && nodes[section].kind == NodeKind.VariablesSection && nodes[section].lexem == old(nodes[section].lexem)
        invariant nodes[parent].children == base[parent].children + (if hasVars then [Some(section)] else [])
        invariant done ==> Cur().token != Token.VarDef && Cur().lexType != LexemType.Annotation
        invariant old(Cur()).token == Token.VarDef && old(Cur()).lexType != LexemType.Annotation ==> hasVars || (!done && read == old(read))
        decreases |lexemes| + 1 - read, if done then 0 else 1
      {
        done := BuildVariableItem(parent, section, hasVars, base);
        hasVars := hasVars || !done;
      }
    }

    /** One turn of BuildVariableItems: the annotations, then, at Перем, a definition. Whether the
        loop ends. */
    method BuildVariableItem(parent: nat, section: nat, hasVars: bool, ghost base: seq<SyntaxNode>) returns (done: bool)
      requires Ready() && CurrentParent() == section && parent < |base| && section == |base| < |nodes|
      requires ChangedOnlyAt(base, nodes, parent) && nodes[section].kind == NodeKind.VariablesSection
      requires nodes[parent].children == base[parent].children + (if hasVars then [Some(section)] else [])
      modifies this
      ensures Valid() && Grown() && pending.None? && !hung && ChangedOnlyAt(base, nodes, parent)
      ensures scope == old(scope) && flags == old(flags) && lastDereferenceIsWritable == old(lastDereferenceIsWritable)
      ensures section < |nodes| && nodes[section].kind == NodeKind.VariablesSection && nodes[section].lexem == old(nodes[section].lexem)
      ensures nodes[parent].children == base[parent].children + (if hasVars || !done then [Some(section)] else [])
      ensures done ==> Cur().token != Token.VarDef && Cur().lexType != LexemType.Annotation
      ensures !done ==> old(read) < read
      ensures old(Cur()).token == Token.VarDef && old(Cur()).lexType != LexemType.Annotation ==> !done
    {
      ghost var n0 := nodes;
      BuildAnnotations();
      ChangedThenGrown(base, n0, nodes, parent);
      if Cur().token != Token.VarDef {
        return true;
      }
      BuildVariableEntry(parent, section, hasVars, base);
      done := false;
    }

    /** At Перем in BuildVariableItems: the section becomes the last child of its parent unless it
        already is, and a definition is read. */
    method BuildVariableEntry(parent: nat, section: nat, hasVars: bool, ghost base: seq<SyntaxNode>)
      requires Ready() && CurrentParent() == section && parent < |base| && section == |base| < |nodes|
      requires ChangedOnlyAt(base, nodes, parent) && nodes[section].kind == NodeKind.VariablesSection
      requires nodes[parent].children == base[parent].children + (if hasVars then [Some(section)] else [])
      requires Cur().token == Token.VarDef
      modifies this
      ensures Valid() && Grown() && pending.None? && !hung && ChangedOnlyAt(base, nodes, parent) && old(read) < read
      ensures scope == old(scope) && flags == old(flags) && annotations == [] && lastDereferenceIsWritable == old(lastDereferenceIsWritable)
      ensures section < |nodes| && nodes[section].kind == NodeKind.VariablesSection && nodes[section].lexem == old(nodes[section].lexem)
      ensures nodes[parent].children == base[parent].children + [Some(section)]
    {
      if !hasVars {
        ghost var n1 := nodes;
        AddChild(parent, Some(section));
        WithChildChangesOnlyParent(n1, parent, Some(section));
        ChangedTwice(base, n1, nodes, parent);
      }
      ghost var n2 := nodes;
      BuildVariableDefinition();
      ChangedThenChangedAbove(base, n2, nodes, parent, section);
      ChangedParent(n2, nodes, section, section);
    }

    /** BuildVariableDefinition: a VariableDefinition child of the current parent for each name of
        the list, on Перем with the pending annotations for the first, and on the comma before it
        for each further one. */
    method BuildVariableDefinition()
      requires Ready() && Cur().token == Token.VarDef
      modifies this
      ensures Valid() && Grown() && pending.None? && !hung && old(read) < read
      ensures scope == old(scope) && flags == old(flags) && annotations == [] && lastDereferenceIsWritable == old(lastDereferenceIsWritable)
      ensures ChangedOnlyAt(old(nodes), nodes, old(CurrentParent()))
      ensures var c := old(nodes[CurrentParent()].children);
        |c| < |nodes[old(CurrentParent())].children| && nodes[old(CurrentParent())].children[|c|] == Some(|old(nodes)|)
      ensures Heads(nodes, |old(nodes)|, NodeKind.VariableDefinition, old(Cur()), Refs(old(annotations)))
    {
      var parent := CurrentParent();
      var more := BuildVariable();
      while more
        invariant Valid() && Grown() && pending.None? && !hung && old(read) < read
        invariant scope == old(scope) && flags == old(flags) && annotations == [] && lastDereferenceIsWritable == old(lastDereferenceIsWritable)
        invariant ChangedOnlyAt(old(nodes), nodes, parent)
        invariant var c := old(nodes[parent].children);
          |c| < |nodes[parent].children| && nodes[parent].children[|c|] == Some(|old(nodes)|)
        invariant Heads(nodes, |old(nodes)|, NodeKind.VariableDefinition, old(Cur()), Refs(old(annotations)))
        invariant more ==> Cur().token == Token.Comma
        decreases |lexemes| + 1 - read
      {
        ghost var n1 := nodes;
        more := BuildVariable();
        ChangedTwice(old(nodes), n1, nodes, parent);
        ChangedParent(n1, nodes, parent, |old(nodes)|);
      }
    }

    /** One turn of BuildVariableDefinition: a VariableDefinition child of the current parent on
        the current lexeme, with the pending annotations; the lexeme is consumed and the name
        follows. Whether a comma continues the list. */
    method BuildVariable() returns (more: bool)
      requires Ready() && Cur().token != Token.EndOfText
      modifies this
      ensures Valid() && Grown() && pending.None? && !hung && old(read) < read
      ensures scope == old(scope) && flags == old(flags) && annotations == [] && lastDereferenceIsWritable == old(lastDereferenceIsWritable)
      ensures ChangedOnlyAt(old(nodes), nodes, old(CurrentParent()))
      ensures nodes[old(CurrentParent())].children == old(nodes[CurrentParent()].children) + [Some(|old(nodes)|)]
      ensures Heads(nodes, |old(nodes)|, NodeKind.VariableDefinition, old(Cur()), Refs(old(annotations)))
      ensures more ==> Cur().token == Token.Comma
      ensures !IsUserSymbol(LexemAt(lexemes, old(read) + 1)) ==>
        !more && errors == old(errors) + [ParseError(IdentifierExpected, old(read) + 1)]
    {
      var parent := CurrentParent();
      var variable := CreateChild(parent, NodeKind.VariableDefinition, Cur());
      WithChildChangesOnlyParent(old(nodes) + [nodes[variable]], parent, Some(variable));
      ghost var n0 := nodes;
      ApplyAnnotations(variable);
      ChangedThenChangedAbove(old(nodes), n0, nodes, parent, variable);
      assert [] + Refs(old(annotations)) == Refs(old(annotations));
      NextLexem();
      NextReadAdvances(lexemes, old(read));
      ghost var n1 := nodes;
      more := BuildVariableName(variable);
      ChangedThenChangedAbove(old(nodes), n1, nodes, parent, variable);
      ChangedParent(n1, nodes, variable, variable);
    }

    /** The name in a variable definition: a name that is not a keyword is the Identifier child of
        the definition and is consumed, unless the definition comes too late (LateVarDefinition);
        anything else is IdentifierExpected. Whether a comma continues the list. */
    method BuildVariableName(variable: nat) returns (more: bool)
      requires Plain() && variable < |nodes|
      modifies this
      ensures Valid() && Grown() && ScopeKept() && pending.None? && !hung && ChangedOnlyAt(old(nodes), nodes, variable)
      ensures more ==> old(read) < read && Cur().token == Token.Comma
      ensures !IsUserSymbol(old(Cur())) ==>
        !more && nodes == old(nodes) && errors == old(errors) + [ParseError(IdentifierExpected, old(read))]
      ensures IsUserSymbol(old(Cur())) && LateDefinition() ==>
        !more && nodes == old(nodes) && errors == old(errors) + [ParseError(LateVarDefinition, old(read))]
      ensures IsUserSymbol(old(Cur())) && !LateDefinition() ==>
        |old(nodes)| < |nodes| && nodes[|old(nodes)|] == SyntaxNode(NodeKind.Identifier, old(Cur()), [])
        && |old(nodes[variable].children)| < |nodes[variable].children|
        && nodes[variable].children[|old(nodes[variable].children)|] == Some(|old(nodes)|)
    {
      if !IsUserSymbol(Cur()) {
        AddError(IdentifierExpected);
        GrownIsChanged(nodes, nodes, variable);
        return false;
      }
      if LateDefinition() {
        AddError(LateVarDefinition);
        GrownIsChanged(nodes, nodes, variable);
        return false;
      }
      var name := Cur().content;
      var id := CreateChild(variable, NodeKind.Identifier, Cur());
      WithChildChangesOnlyParent(old(nodes) + [nodes[id]], variable, Some(id));
      NextLexem();
      ghost var n1 := nodes;
      more := BuildVariableRest(variable, name);
      ChangedTwice(old(nodes), n1, nodes, variable);
      ChangedParent(n1, nodes, variable, id);
    }

    /** The end of a variable definition after its name: Экспорт, which marks the definition, and
        then the separator. */
    method BuildVariableRest(variable: nat, name: Text) returns (more: bool)
      requires Plain() && variable < |nodes|
      modifies this
      ensures Valid() && Grown() && ScopeKept() && pending.None? && !hung && ChangedOnlyAt(old(nodes), nodes, variable)
      ensures more ==> Cur().token == Token.Comma
      ensures old(Cur()).token != Token.Export ==> nodes == old(nodes) && (more <==> old(Cur()).token == Token.Comma)
      ensures old(Cur()).token == Token.Export ==>
        nodes[variable].children == old(nodes[variable].children) + [Some(|old(nodes)|)]
        && |old(nodes)| < |nodes| && nodes[|old(nodes)|].kind == NodeKind.ExportFlag
        && (scope.inMethodScope ==> |old(errors)| < |errors| && errors[|old(errors)|] == ParseError(ExportedLocalVar(name), old(read)))
    {
      if Cur().token == Token.Export {
        ghost var flagAt := BuildExportFlag(variable, name);
        WithChildChangesOnlyParent(old(nodes) + [nodes[|old(nodes)|]], variable, Some(|old(nodes)|));
      } else {
        GrownIsChanged(nodes, nodes, variable);
      }
      more := BuildVariableEnd();
    }

    /** Экспорт after a variable's name: inside a method it is an error (ExportedLocalVar, naming
        the variable), after which the lexer has skipped ahead; then an ExportFlag child of the
        definition on the current lexeme, which is consumed. */
    method BuildExportFlag(variable: nat, name: Text) returns (ghost flagAt: nat)
      requires Plain() && variable < |nodes|
      modifies this
      ensures Valid() && ScopeKept() && pending.None? && !hung
      ensures flagAt == (if scope.inMethodScope then SkipTarget(lexemes, old(read), Stops(scope.tokenStack), beginsStatement) else old(read))
      ensures errors == old(errors) + (if scope.inMethodScope then [ParseError(ExportedLocalVar(name), old(read))] else [])
      ensures nodes == WithChild(old(nodes) + [SyntaxNode(NodeKind.ExportFlag, LexemAt(lexemes, flagAt), [])], variable, Some(|old(nodes)|))
      ensures old(read) <= flagAt && read == NextRead(lexemes, flagAt)
    {
      if scope.inMethodScope {
        AddError(ExportedLocalVar(name));
      }
      flagAt := read;
      var flag := CreateChild(variable, NodeKind.ExportFlag, Cur());
      NextLexem();
    }

    /** The separator after a variable definition: a comma continues the list and is left for the
        next definition to stand on; a semicolon is consumed; anything else is SemicolonExpected. */
    method BuildVariableEnd() returns (more: bool)
      requires Plain()
      modifies this
      ensures Valid() && Grown() && ScopeKept() && nodes == old(nodes) && pending.None? && !hung
      ensures more <==> old(Cur()).token == Token.Comma
      ensures more ==> read == old(read) && errors == old(errors)
      ensures old(Cur()).token == Token.Semicolon ==> read == old(read) + 1 && errors == old(errors)
      ensures old(Cur()).token != Token.Comma && old(Cur()).token != Token.Semicolon ==>
        errors == old(errors) + [ParseError(SemicolonExpected, old(read))]
    {
      if Cur().token == Token.Comma {
        return true;
      }
      if Cur().token == Token.Semicolon {
        NextLexem();
        NextReadAdvances(lexemes, old(read));
      } else {
        AddError(SemicolonExpected);
      }
      more := false;
    }

    // ---------------------------------------------------------------- methods

    /** BuildMethodsSection: at an annotation, Процедура or Функция, a MethodsSection node on the
        current lexeme is the current parent while annotations and methods are read; it becomes
        the last child of the old parent at the first method, and stays out of the tree if there is
        none. */
    method BuildMethodsSection()
      requires Ready()
      modifies this
      ensures SectionStep() && ChangedOnlyAt(old(nodes), nodes, old(CurrentParent()))
      ensures !hung ==> !StartsMethod(Cur().token) && Cur().lexType != LexemType.Annotation
      ensures !StartsMethod(old(Cur()).token) && old(Cur()).lexType != LexemType.Annotation ==>
        nodes == old(nodes) && read == old(read) && errors == old(errors) && scope == old(scope) && flags == old(flags) && annotations == old(annotations) && !hung
      ensures StartsMethod(old(Cur()).token) || old(Cur()).lexType == LexemType.Annotation ==>
        Heads(nodes, |old(nodes)|, NodeKind.MethodsSection, old(Cur()), [])
        && (nodes[old(CurrentParent())].children == old(nodes[CurrentParent()].children)
            || nodes[old(CurrentParent())].children == old(nodes[CurrentParent()].children) + [Some(|old(nodes)|)])
      ensures StartsMethod(old(Cur()).token) && old(Cur()).lexType != LexemType.Annotation ==>
        nodes[old(CurrentParent())].children == old(nodes[CurrentParent()].children) + [Some(|old(nodes)|)]
    {
      if !StartsMethod(Cur().token) && Cur().lexType != LexemType.Annotation {
        GrownIsChanged(nodes, nodes, CurrentParent());
        return;
      }
      var parent := CurrentParent();
      var section := CreateNode(NodeKind.MethodsSection, Cur());
      PushContext(section);
      BuildMethodItems(parent, section, old(nodes));
      PopContext();
    }

    /** The loop of BuildMethodsSection, with the section node made after the nodes of `base` as
        the current parent: annotations, then a method at Процедура or Функция, the first of which
        makes the section the last child of its parent; anything else ends the loop. */
    method BuildMethodItems(parent: nat, section: nat, ghost base: seq<SyntaxNode>)
      requires Ready() && CurrentParent() == section && parent < |base| && section == |base|
      requires |nodes| == |base| + 1 && base <= nodes && nodes[section].kind == NodeKind.MethodsSection
      modifies this
      ensures SectionStep() && ChangedOnlyAt(base, nodes, parent)
      ensures !hung ==> !StartsMethod(Cur().token) && Cur().lexType != LexemType.Annotation
      ensures section < |nodes| && nodes[section].kind == NodeKind.MethodsSection && nodes[section].lexem == old(nodes[section].lexem)
      ensures nodes[parent].children == base[parent].children || nodes[parent].children == base[parent].children + [Some(section)]
      ensures StartsMethod(old(Cur()).token) && old(Cur()).lexType != LexemType.Annotation ==>
        nodes[parent].children == base[parent].children + [Some(section)]
    {
      GrownIsChanged(base, nodes, parent);
      var hasMethods, done := false, false;
      while !done
        invariant SectionStep() && ChangedOnlyAt(base, nodes, parent)
        invariant !done ==> !hung && CurrentParent() == section
        invariant section < |nodes| && nodes[section].kind == NodeKind.MethodsSection && nodes[section].lexem == old(nodes[section].lexem)
        invariant nodes[parent].children == base[parent].children + (if hasMethods then [Some(section)] else [])
        invariant done && !hung ==> !StartsMethod(Cur().token) && Cur().lexType != LexemType.Annotation
        invariant StartsMethod(old(Cur()).token) && old(Cur()).lexType != LexemType.Annotation ==> hasMethods || (!done && read == old(read))
        decreases |lexemes| + 1 - read, if done then 0 else 1
      {
        var added;
        done, added := BuildMethodItem(parent, section, hasMethods, base);
        hasMethods := hasMethods || added;
      }
    }

    /** One turn of BuildMethodItems: the annotations, then, at Процедура or Функция, a method,
        before which the section becomes the last child of its parent unless it already is. Whether
        the loop ends, which it also does when the method's body hangs, and whether a method was
        read. */
    method BuildMethodItem(parent: nat, section: nat, hasMethods: bool, ghost base: seq<SyntaxNode>)
      returns (done: bool, added: bool)
      requires Ready() && CurrentParent() == section && parent < |base| && section == |base| < |nodes|
      requires ChangedOnlyAt(base, nodes, parent) && nodes[section].kind == NodeKind.MethodsSection
      requires nodes[parent].children == base[parent].children + (if hasMethods then [Some(section)] else [])
      modifies this
      ensures SectionStep() && ChangedOnlyAt(base, nodes, parent)
      ensures section < |nodes| && nodes[section].kind == NodeKind.MethodsSection && nodes[section].lexem == old(nodes[section].lexem)
      ensures nodes[parent].children == base[parent].children + (if hasMethods || added then [Some(section)] else [])
      ensures !done ==> !hung && old(read) < read && CurrentParent() == section
      ensures done && !hung ==> !StartsMethod(Cur().token) && Cur().lexType != LexemType.Annotation
      ensures StartsMethod(old(Cur()).token) && old(Cur()).lexType != LexemType.Annotation ==> added
    {
      ghost var n0 := nodes;
      BuildAnnotations();
      ChangedThenGrown(base, n0, nodes, parent);
      if !StartsMethod(Cur().token) {
        return true, false;
      }
      BuildMethodEntry(parent, section, hasMethods, base);
      return hung, true;
    }

    /** At Процедура or Функция in BuildMethodItems: the section becomes the last child of its
        parent unless it already is, and a method is read. */
    method BuildMethodEntry(parent: nat, section: nat, hasMethods: bool, ghost base: seq<SyntaxNode>)
      requires Ready() && CurrentParent() == section && parent < |base| && section == |base| < |nodes|
      requires ChangedOnlyAt(base, nodes, parent) && nodes[section].kind == NodeKind.MethodsSection
      requires nodes[parent].children == base[parent].children + (if hasMethods then [Some(section)] else [])
      requires StartsMethod(Cur().token)
      modifies this
      ensures SectionStep() && ChangedOnlyAt(base, nodes, parent) && old(read) < read && CurrentParent() == section
      ensures section < |nodes| && nodes[section].kind == NodeKind.MethodsSection && nodes[section].lexem == old(nodes[section].lexem)
      ensures nodes[parent].children == base[parent].children + [Some(section)]
    {
      if !hasMethods {
        AttachMethodsSection(parent, section, base);
      }
      ghost var n2 := nodes;
      BuildMethod();
      ChangedThenChangedAbove(base, n2, nodes, parent, section);
      ChangedParent(n2, nodes, section, section);
    }

    /** The methods section becomes the parent's child before its first method. */
    method AttachMethodsSection(parent: nat, section: nat, ghost base: seq<SyntaxNode>)
      requires Valid() && parent < |base| && section == |base| < |nodes|
      requires ChangedOnlyAt(base, nodes, parent) && nodes[parent].children == base[parent].children
      modifies this
      ensures Valid() && OnlyNodes() && |nodes| == |old(nodes)| && nodes[section] == old(nodes[section])
      ensures ChangedOnlyAt(base, nodes, parent) && nodes[parent].children == base[parent].children + [Some(section)]
    {
      ghost var n1 := nodes;
      AddChild(parent, Some(section));
      WithChildChangesOnlyParent(n1, parent, Some(section));
      ChangedTwice(base, n1, nodes, parent);
    }

    /** BuildMethod: a Method child of the current parent on Процедура or Функция, with the pending
        annotations; its signature first below it; the method's scope flags are clear afterwards. */
    method BuildMethod()
      requires Ready() && StartsMethod(Cur().token)
      modifies this
      ensures SectionStep() && old(read) < read && ChangedOnlyAt(old(nodes), nodes, old(CurrentParent()))
      ensures !scope.inMethodScope && !flags.isStatementsDefined && !scope.isInFunctionScope
      ensures nodes[old(CurrentParent())].children == old(nodes[CurrentParent()].children) + [Some(|old(nodes)|)]
      ensures Heads(nodes, |old(nodes)|, NodeKind.Method, old(Cur()), Refs(old(annotations)) + [Some(|old(nodes)| + 1)])
      ensures |old(nodes)| + 1 < |nodes| && nodes[|old(nodes)| + 1].kind == NodeKind.MethodSignature
    {
      var parent := CurrentParent();
      var methodNode := CreateAnnotatedMethod(parent);
      ghost var n1 := nodes;
      BuildMethodInContext(methodNode);
      ChangedThenChangedAbove(old(nodes), n1, nodes, parent, methodNode);
      ChangedParent(n1, nodes, methodNode, methodNode);
    }

    /** The Method node under the parent, with the pending annotations as its first children. */
    method CreateAnnotatedMethod(parent: nat) returns (methodNode: nat)
      requires Ready() && parent < |nodes|
      modifies this
      ensures Ready() && scope == old(scope) && flags == old(flags) && annotations == []
      ensures read == old(read) && errors == old(errors) && pending == old(pending)
      ensures methodNode == |old(nodes)| && |nodes| == methodNode + 1 && ChangedOnlyAt(old(nodes), nodes, parent)
      ensures nodes[parent].children == old(nodes[parent].children) + [Some(methodNode)]
      ensures nodes[methodNode] == SyntaxNode(NodeKind.Method, old(Cur()), Refs(old(annotations)))
    {
      methodNode := CreateChild(parent, NodeKind.Method, Cur());
      WithChildChangesOnlyParent(old(nodes) + [nodes[methodNode]], parent, Some(methodNode));
      ghost var n0 := nodes;
      ApplyAnnotations(methodNode);
      ChangedThenChangedAbove(old(nodes), n0, nodes, parent, methodNode);
      assert [] + Refs(old(annotations)) == Refs(old(annotations));
    }

    /** The method as the current parent while its signature, variables and body are read; its
        scope flags (function scope, method scope, statements seen) are cleared afterwards. */
    method BuildMethodInContext(methodNode: nat)
      requires Ready() && methodNode < |nodes| && StartsMethod(Cur().token)
      modifies this
      ensures SectionStep() && old(read) < read && ChangedOnlyAt(old(nodes), nodes, methodNode)
      ensures !scope.inMethodScope && !flags.isStatementsDefined && !scope.isInFunctionScope
      ensures var c := old(nodes[methodNode].children);
        |c| < |nodes[methodNode].children| && nodes[methodNode].children[|c|] == Some(|old(nodes)|)
      ensures |old(nodes)| < |nodes| && nodes[|old(nodes)|].kind == NodeKind.MethodSignature
    {
      PushContext(methodNode);
      BuildMethodParts();
      scope := scope.(isInFunctionScope := false, inMethodScope := false);
      flags := flags.(isStatementsDefined := false);
      PopContext();
    }

    /** The parts of a method, below the current parent: the signature; then, in method scope, the
        variables; then, with statements counting as seen, the body. */
    method BuildMethodParts()
      requires Ready() && StartsMethod(Cur().token)
      modifies this
      ensures SectionStep() && old(read) < read && ChangedOnlyAt(old(nodes), nodes, old(CurrentParent()))
      ensures var c := old(nodes[CurrentParent()].children);
        |c| < |nodes[old(CurrentParent())].children| && nodes[old(CurrentParent())].children[|c|] == Some(|old(nodes)|)
      ensures |old(nodes)| < |nodes| && nodes[|old(nodes)|].kind == NodeKind.MethodSignature
    {
      var methodNode := CurrentParent();
      BuildMethodSignature();
      ghost var n1 := nodes;
      BuildMethodVariablesAndBody();
      ChangedTwice(old(nodes), n1, nodes, methodNode);
      ChangedParent(n1, nodes, methodNode, |old(nodes)|);
      ChildKept(n1, nodes, methodNode, |old(nodes[methodNode].children)|);
    }

    /** The parts of a method after its signature: in method scope, the variables; then, with
        statements counting as seen, the body. */
    method BuildMethodVariablesAndBody()
      requires Ready()
      modifies this
      ensures SectionStep() && ChangedOnlyAt(old(nodes), nodes, old(CurrentParent()))
    {
      var methodNode := CurrentParent();
      BuildMethodVariables();
      flags := flags.(isStatementsDefined := true);
      ghost var n1 := nodes;
      ghost var closeAt := BuildMethodBody();
      ChangedTwice(old(nodes), n1, nodes, methodNode);
    }

    /** In method scope, the method's variable section below the current parent. */
    method BuildMethodVariables()
      requires Ready()
      modifies this
      ensures Ready() && Grown() && SectionStep() && flags == old(flags) && scope.inMethodScope
      ensures ChangedOnlyAt(old(nodes), nodes, old(CurrentParent()))
    {
      scope := scope.(inMethodScope := true);
      BuildVariableSection();
    }

    /** BuildMethodBody: a CodeBatch child of the method on the current lexeme, read as the current
        parent up to КонецФункции in a function and КонецПроцедуры in a procedure; then a BlockEnd
        child of the method on the lexeme that ended it, which is consumed. */
    method BuildMethodBody() returns (ghost closeAt: nat)
      requires Ready()
      modifies this
      ensures StmtStep() && ChangedOnlyAt(old(nodes), nodes, old(CurrentParent()))
      ensures var c := old(nodes[CurrentParent()].children);
        |c| < |nodes[old(CurrentParent())].children| && nodes[old(CurrentParent())].children[|c|] == Some(|old(nodes)|)
        && |old(nodes)| < |nodes| && nodes[|old(nodes)|].kind == NodeKind.CodeBatch
      ensures !hung ==>
        (ClosedOn(old(CurrentParent()), LexemAt(lexemes, closeAt)) && read == NextRead(lexemes, closeAt)
         && (LexemAt(lexemes, closeAt).token == (if old(scope.isInFunctionScope) then Token.EndFunction else Token.EndProcedure)
             || LexemAt(lexemes, closeAt).token in endsBlock))
    {
      var methodNode := CurrentParent();
      var end := if scope.isInFunctionScope then Token.EndFunction else Token.EndProcedure;
      var batch := BuildBatchWithContext(methodNode, [end]);
      closeAt := read;
      if hung {
        return;
      }
      ghost var n1 := nodes;
      BuildBlockEnd(methodNode);
      ChangedTwice(old(nodes), n1, nodes, methodNode);
    }

    /** The block state is as before but for the function-scope flag, which is as given. */
    twostate predicate FunctionScopeSet(isFunction: bool)
      reads this
    {
      scope.contexts == old(scope.contexts) && scope.tokenStack == old(scope.tokenStack)
      && scope.inMethodScope == old(scope.inMethodScope) && scope.isMethodsDefined == old(scope.isMethodsDefined)
      && scope.isInFunctionScope == isFunction && scope.enableException == old(scope.enableException)
    }

    /** BuildMethodSignature: a MethodSignature child of the current parent on Процедура or
        Функция, over a Procedure or Function node on the same lexeme, which sets the function-scope
        flag and is consumed; then the name. */
    method BuildMethodSignature()
      requires Ready() && StartsMethod(Cur().token)
      modifies this
      ensures Valid() && Grown() && pending.None? && !hung && old(read) < read
      ensures flags == old(flags) && FunctionScopeSet(old(Cur()).token == Token.Function)
      ensures lastDereferenceIsWritable == old(lastDereferenceIsWritable)
      ensures ChangedOnlyAt(old(nodes), nodes, old(CurrentParent()))
      ensures nodes[old(CurrentParent())].children == old(nodes[CurrentParent()].children) + [Some(|old(nodes)|)]
      ensures Heads(nodes, |old(nodes)|, NodeKind.MethodSignature, old(Cur()), [Some(|old(nodes)| + 1)])
      ensures |old(nodes)| + 1 < |nodes| && nodes[|old(nodes)| + 1]
        == SyntaxNode(if old(Cur()).token == Token.Function then NodeKind.Function else NodeKind.Procedure, old(Cur()), [])
    {
      var isFunction := Cur().token == Token.Function;
      var parent := CurrentParent();
      var signature := CreateSignatureNodes(parent, if isFunction then NodeKind.Function else NodeKind.Procedure, Cur());
      ghost var n2 := nodes;
      BuildSignatureRest(signature, isFunction);
      ChangedThenChangedAbove(old(nodes), n2, nodes, parent, signature);
      HeadsKept(n2, nodes, signature, NodeKind.MethodSignature, old(Cur()), [Some(signature + 1)]);
      ChangedParent(n2, nodes, signature, signature + 1);
    }

    /** BuildMethodSignature after its nodes: the function-scope flag is set, the keyword is
        consumed, and the name follows. */
    method BuildSignatureRest(signature: nat, isFunction: bool)
      requires Plain() && signature < |nodes| && StartsMethod(Cur().token)
      modifies this
      ensures Valid() && Grown() && pending.None? && !hung && old(read) < read
      ensures flags == old(flags) && FunctionScopeSet(isFunction)
      ensures lastDereferenceIsWritable == old(lastDereferenceIsWritable)
      ensures ChangedOnlyAt(old(nodes), nodes, signature)
    {
      scope := scope.(isInFunctionScope := isFunction);
      NextLexem();
      NextReadAdvances(lexemes, old(read));
      BuildSignatureName(signature);
    }

    /** The nodes of BuildMethodSignature: a MethodSignature child of the parent over a node of the
        given kind, both on the lexeme. */
    method CreateSignatureNodes(parent: nat, kind: NodeKind, lexem: Lexem) returns (signature: nat)
      requires parent < |nodes|
      modifies this
      ensures OnlyNodes() && signature == |old(nodes)| && |nodes| == signature + 2 && ChangedOnlyAt(old(nodes), nodes, parent)
      ensures nodes[parent].children == old(nodes[parent].children) + [Some(signature)]
      ensures nodes[signature] == SyntaxNode(NodeKind.MethodSignature, lexem, [Some(signature + 1)])
      ensures nodes[signature + 1] == SyntaxNode(kind, lexem, [])
    {
      signature := CreateChild(parent, NodeKind.MethodSignature, lexem);
      WithChildChangesOnlyParent(old(nodes) + [nodes[signature]], parent, Some(signature));
      ghost var n1 := nodes;
      var k := CreateChild(signature, kind, lexem);
      WithChildChangesOnlyParent(n1 + [nodes[k]], signature, Some(k));
      ChangedThenChangedAbove(old(nodes), n1, nodes, parent, signature);
      assert nodes[signature].children == [Some(k)];
    }

    /** The name of a method: a name that is not a keyword is the Identifier child of the
        signature, the parameters follow, and Экспорт after them is an ExportFlag child, which is
        consumed; anything else is IdentifierExpected. */
    method BuildSignatureName(signature: nat)
      requires Plain() && signature < |nodes|
      modifies this
      ensures Valid() && Grown() && pending.None? && !hung
      ensures scope == old(scope) && flags == old(flags) && lastDereferenceIsWritable == old(lastDereferenceIsWritable)
      ensures ChangedOnlyAt(old(nodes), nodes, signature)
      ensures !IsUserSymbol(old(Cur())) ==>
        nodes == old(nodes) && errors == old(errors) + [ParseError(IdentifierExpected, old(read))]
      ensures IsUserSymbol(old(Cur())) ==>
        |old(nodes)| < |nodes| && nodes[|old(nodes)|] == SyntaxNode(NodeKind.Identifier, old(Cur()), [])
        && |old(nodes[signature].children)| < |nodes[signature].children|
        && nodes[signature].children[|old(nodes[signature].children)|] == Some(|old(nodes)|)
    {
      if !IsUserSymbol(Cur()) {
        AddError(IdentifierExpected);
        GrownIsChanged(nodes, nodes, signature);
      } else {
        BuildNamedSignature(signature);
      }
    }

    /** BuildSignatureName on a name that is not a keyword: its Identifier child, the parameters,
        and the export flag. */
    method BuildNamedSignature(signature: nat)
      requires Plain() && signature < |nodes| && IsUserSymbol(Cur())
      modifies this
      ensures Valid() && Grown() && pending.None? && !hung
      ensures scope == old(scope) && flags == old(flags) && lastDereferenceIsWritable == old(lastDereferenceIsWritable)
      ensures ChangedOnlyAt(old(nodes), nodes, signature)
      ensures |old(nodes)| < |nodes| && nodes[|old(nodes)|] == SyntaxNode(NodeKind.Identifier, old(Cur()), [])
        && |old(nodes[signature].children)| < |nodes[signature].children|
        && nodes[signature].children[|old(nodes[signature].children)|] == Some(|old(nodes)|)
    {
      var name := CreateChild(signature, NodeKind.Identifier, Cur());
      WithChildChangesOnlyParent(old(nodes) + [nodes[name]], signature, Some(name));
      ghost var n1 := nodes;
      BuildMethodParameters(signature);
      ghost var n2 := nodes;
      BuildMethodExport(signature);
      ChangedTwice(n1, n2, nodes, signature);
      ChangedTwice(old(nodes), n1, nodes, signature);
      ChangedParent(n1, nodes, signature, name);
    }

    /** Экспорт after a method's parameters: an ExportFlag child of the signature, consumed. */
    method BuildMethodExport(signature: nat)
      requires Valid() && signature < |nodes|
      modifies this
      ensures Valid() && OnlyNodesAndRead() && ChangedOnlyAt(old(nodes), nodes, signature)
      ensures old(Cur()).token == Token.Export ==>
        read == old(read) + 1
        && nodes == WithChild(old(nodes) + [SyntaxNode(NodeKind.ExportFlag, old(Cur()), [])], signature, Some(|old(nodes)|))
      ensures old(Cur()).token != Token.Export ==> read == old(read) && nodes == old(nodes)
    {
      if Cur().token == Token.Export {
        var flag := CreateChild(signature, NodeKind.ExportFlag, Cur());
        WithChildChangesOnlyParent(old(nodes) + [nodes[flag]], signature, Some(flag));
        NextLexem();
      } else {
        GrownIsChanged(nodes, nodes, signature);
      }
    }

    /** BuildMethodParameters: after the name, an opening parenthesis (TokenExpected otherwise) is
        the MethodParameters child of the signature and is consumed; the parameters follow. */
    method BuildMethodParameters(signature: nat)
      requires Plain() && signature < |nodes|
      modifies this
      ensures Valid() && Grown() && pending.None? && !hung
      ensures scope == old(scope) && flags == old(flags) && lastDereferenceIsWritable == old(lastDereferenceIsWritable)
      ensures annotations == [] || annotations == old(annotations)
      ensures ChangedOnlyAt(old(nodes), nodes, signature)
      ensures var open := NextRead(lexemes, old(read));
        LexemAt(lexemes, open).token != Token.OpenPar ==>
          nodes == old(nodes) && errors == old(errors) + [ParseError(TokenExpected([Token.OpenPar]), open)]
      ensures var open := NextRead(lexemes, old(read));
        LexemAt(lexemes, open).token == Token.OpenPar ==>
          nodes[signature].children == old(nodes[signature].children) + [Some(|old(nodes)|)]
          && Heads(nodes, |old(nodes)|, NodeKind.MethodParameters, LexemAt(lexemes, open), [])
          && ChildrenOfKind(nodes, |old(nodes)|, 0, NodeKind.MethodParameter)
    {
      var found := NextExpected(Token.OpenPar);
      if !found {
        AddError(TokenExpected([Token.OpenPar]));
        GrownIsChanged(nodes, nodes, signature);
        return;
      }
      var list := CreateChild(signature, NodeKind.MethodParameters, Cur());
      WithChildChangesOnlyParent(old(nodes) + [nodes[list]], signature, Some(list));
      NextLexem();
      ghost var n1 := nodes;
      BuildParameterList(list);
      ChangedThenChangedAbove(old(nodes), n1, nodes, signature, list);
      ChangedParent(n1, nodes, list, list);
    }

    /** The loop of BuildMethodParameters: parameters up to the closing parenthesis, which is
        consumed; a parameter in error ends the list, and then nothing more is consumed. */
    method BuildParameterList(list: nat)
      requires Plain() && list < |nodes|
      modifies this
      ensures Valid() && Grown() && pending.None? && !hung
      ensures scope == old(scope) && flags == old(flags) && lastDereferenceIsWritable == old(lastDereferenceIsWritable)
      ensures annotations == [] || annotations == old(annotations)
      ensures ChangedOnlyAt(old(nodes), nodes, list)
      ensures ChildrenOfKind(nodes, list, |old(nodes[list].children)|, NodeKind.MethodParameter)
      ensures old(Cur()).token == Token.ClosePar ==> nodes == old(nodes) && errors == old(errors) && read == old(read) + 1
    {
      GrownIsChanged(nodes, nodes, list);
      var stop := false;
      while !stop && Cur().token != Token.ClosePar
        invariant Valid() && Grown() && pending.None? && !hung
        invariant scope == old(scope) && flags == old(flags) && lastDereferenceIsWritable == old(lastDereferenceIsWritable)
        invariant annotations == [] || annotations == old(annotations)
        invariant ChangedOnlyAt(old(nodes), nodes, list)
        invariant ChildrenOfKind(nodes, list, |old(nodes[list].children)|, NodeKind.MethodParameter)
        invariant old(Cur()).token == Token.ClosePar ==> nodes == old(nodes) && errors == old(errors) && read == old(read) && !stop
        decreases |lexemes| + 1 - read, if stop then 0 else 1
      {
        ghost var n1 := nodes;
        stop := BuildParameter(list, |old(nodes[list].children)|);
        ChangedTwice(old(nodes), n1, nodes, list);
      }
      if !stop {
        NextLexem();
      }
    }

    /** One turn of BuildMethodParameters: the annotations, then a MethodParameter child of the
        list on the current lexeme, with them, and its content. Whether the list ends in error. */
    method BuildParameter(list: nat, ghost from: nat) returns (stop: bool)
      requires Plain() && list < |nodes| && ChildrenOfKind(nodes, list, from, NodeKind.MethodParameter)
      modifies this
      ensures Valid() && Grown() && pending.None? && !hung
      ensures scope == old(scope) && flags == old(flags) && annotations == [] && lastDereferenceIsWritable == old(lastDereferenceIsWritable)
      ensures ChangedOnlyAt(old(nodes), nodes, list)
      ensures var c := nodes[list].children;
        |c| == |old(nodes[list].children)| + 1 && c[|c| - 1].Some? && |old(nodes)| <= c[|c| - 1].value < |nodes|
        && nodes[c[|c| - 1].value].kind == NodeKind.MethodParameter
      ensures ChildrenOfKind(nodes, list, from, NodeKind.MethodParameter)
      ensures !stop ==> old(read) < read
      ensures stop ==> |old(errors)| < |errors|
    {
      var param := BuildParameterNode(list);
      ghost var n1 := nodes;
      stop := BuildParameterContent(param);
      ChangedThenChangedAbove(old(nodes), n1, nodes, list, param);
      ChangedParent(n1, nodes, param, param);
      ChildrenOfKindKept(old(nodes), nodes, list, from, NodeKind.MethodParameter);
    }

    /** The annotations before a parameter, then its MethodParameter child of the list on the
        current lexeme, with them. */
    method BuildParameterNode(list: nat) returns (param: nat)
      requires Plain() && list < |nodes|
      modifies this
      ensures Valid() && Grown() && pending.None? && !hung
      ensures scope == old(scope) && flags == old(flags) && annotations == [] && lastDereferenceIsWritable == old(lastDereferenceIsWritable)
      ensures ChangedOnlyAt(old(nodes), nodes, list)
      ensures nodes[list].children == old(nodes[list].children) + [Some(param)]
      ensures |old(nodes)| <= param < |nodes| && nodes[param].kind == NodeKind.MethodParameter
      ensures nodes[param].lexem == Cur() && (old(Cur()).lexType != LexemType.Annotation ==> read == old(read) && errors == old(errors))
    {
      BuildAnnotations();
      ghost var n1 := nodes;
      GrownIsChanged(old(nodes), n1, list);
      param := CreateChild(list, NodeKind.MethodParameter, Cur());
      WithChildChangesOnlyParent(n1 + [nodes[param]], list, Some(param));
      ghost var n2 := nodes;
      ChangedTwice(old(nodes), n1, n2, list);
      ApplyAnnotations(param);
      ChangedThenChangedAbove(old(nodes), n2, nodes, list, param);
    }

    /** The content of a parameter: Знач is a ByValModifier child, which is consumed; then the
        name. Whether the list ends in error. */
    method BuildParameterContent(param: nat) returns (stop: bool)
      requires Plain() && param < |nodes|
      modifies this
      ensures Valid() && Grown() && ScopeKept() && pending.None? && !hung && ChangedOnlyAt(old(nodes), nodes, param)
      ensures !stop ==> old(read) < read
      ensures stop ==> |old(errors)| < |errors|
      ensures var at := if old(Cur()).token == Token.ByValParam then old(read) + 1 else old(read);
        !IsUserSymbol(LexemAt(lexemes, at)) ==> stop && errors == old(errors) + [ParseError(IdentifierExpected, at)]
    {
      if Cur().token == Token.ByValParam {
        var modifier := CreateChild(param, NodeKind.ByValModifier, Cur());
        WithChildChangesOnlyParent(old(nodes) + [nodes[modifier]], param, Some(modifier));
        NextLexem();
      } else {
        GrownIsChanged(nodes, nodes, param);
      }
      ghost var n1 := nodes;
      stop := BuildParameterName(param);
      ChangedTwice(old(nodes), n1, nodes, param);
    }

    /** The name of a parameter: a name that is not a keyword is its Identifier child, which is
        consumed, and what follows it comes next; anything else is IdentifierExpected, and the list
        ends. */
    method BuildParameterName(param: nat) returns (stop: bool)
      requires Plain() && param < |nodes|
      modifies this
      ensures Valid() && Grown() && ScopeKept() && pending.None? && !hung && ChangedOnlyAt(old(nodes), nodes, param)
      ensures !stop ==> old(read) < read
      ensures stop ==> |old(errors)| < |errors|
      ensures !IsUserSymbol(old(Cur())) ==>
        stop && nodes == old(nodes) && errors == old(errors) + [ParseError(IdentifierExpected, old(read))]
      ensures IsUserSymbol(old(Cur())) ==>
        |old(nodes)| < |nodes| && nodes[|old(nodes)|] == SyntaxNode(NodeKind.Identifier, old(Cur()), [])
        && |old(nodes[param].children)| < |nodes[param].children|
        && nodes[param].children[|old(nodes[param].children)|] == Some(|old(nodes)|)
    {
      if !IsUserSymbol(Cur()) {
        AddError(IdentifierExpected);
        GrownIsChanged(nodes, nodes, param);
        return true;
      }
      var name := CreateChild(param, NodeKind.Identifier, Cur());
      WithChildChangesOnlyParent(old(nodes) + [nodes[name]], param, Some(name));
      NextLexem();
      ghost var n1 := nodes;
      stop := BuildParameterTail(param);
      ChangedTwice(old(nodes), n1, nodes, param);
      ChangedParent(n1, nodes, param, name);
    }

    /** After a parameter's name: = introduces a default value, whose failure ends the list; then
        a comma is consumed. */
    method BuildParameterTail(param: nat) returns (stop: bool)
      requires Plain() && param < |nodes|
      modifies this
      ensures Valid() && Grown() && ScopeKept() && pending.None? && !hung && ChangedOnlyAt(old(nodes), nodes, param)
      ensures stop ==> |old(errors)| < |errors|
      ensures old(Cur()).token != Token.Equal ==>
        !stop && nodes == old(nodes) && errors == old(errors)
        && read == (if old(Cur()).token == Token.Comma then old(read) + 1 else old(read))
    {
      if Cur().token == Token.Equal {
        NextLexem();
        var ok := BuildDefaultParameterValue(param);
        if !ok {
          return true;
        }
      } else {
        GrownIsChanged(nodes, nodes, param);
      }
      if Cur().token == Token.Comma {
        NextLexem();
      }
      stop := false;
    }

    /** BuildDefaultParameterValue: after =, an optional sign and a literal; the literal as
        DefaultValue rewrites it is the ParameterDefaultValue child of the parameter and is
        consumed; what DefaultValue rejects is recorded, and the value fails. */
    method BuildDefaultParameterValue(param: nat) returns (ok: bool)
      requires Plain() && param < |nodes|
      modifies this
      ensures Valid() && Grown() && ScopeKept() && pending.None? && !hung && ChangedOnlyAt(old(nodes), nodes, param)
      ensures var signed := old(Cur()).token == Token.Minus || old(Cur()).token == Token.Plus;
        var at := if signed then NextRead(lexemes, old(read)) else old(read);
        var v := DefaultValue(signed, old(Cur()).token == Token.Minus, LexemAt(lexemes, at));
        (ok <==> v.Ok?)
        && (v.Ok? ==> (read == at + 1 && errors == old(errors)
                       && nodes == WithChild(old(nodes) + [SyntaxNode(NodeKind.ParameterDefaultValue, v.value, [])], param, Some(|old(nodes)|))))
        && (v.Err? ==> nodes == old(nodes) && errors == old(errors) + [ParseError(v.error, at)])
    {
      var signIsMinus := Cur().token == Token.Minus;
      var hasSign := false;
      if signIsMinus || Cur().token == Token.Plus {
        hasSign := true;
        NextLexem();
      }
      var value := DefaultValue(hasSign, signIsMinus, Cur());
      if value.Ok? {
        var node := CreateChild(param, NodeKind.ParameterDefaultValue, value.value);
        WithChildChangesOnlyParent(old(nodes) + [nodes[node]], param, Some(node));
        NextLexem();
        ok := true;
      } else {
        AddError(value.error);
        GrownIsChanged(nodes, nodes, param);
        ok := false;
      }
    }

    // ---------------------------------------------------------------- module

    /** BuildModuleBody: when the lexer finds more text, a ModuleBody node on the current lexeme,
        over a CodeBatch read as the current parent up to the end of text, becomes the last child of
        the current parent; otherwise nothing is read. */
    method BuildModuleBody()
      requires Ready()
      modifies this
      ensures StmtStep() && ChangedOnlyAt(old(nodes), nodes, old(CurrentParent()))
      ensures old(read) !in moreText ==>
        nodes == old(nodes) && read == old(read) && errors == old(errors) && scope == old(scope) && flags == old(flags) && annotations == old(annotations) && !hung
      ensures old(read) in moreText && !hung ==>
        nodes[old(CurrentParent())].children == old(nodes[CurrentParent()].children) + [Some(|old(nodes)|)]
        && Heads(nodes, |old(nodes)|, NodeKind.ModuleBody, old(Cur()), [Some(|old(nodes)| + 1)])
        && |old(nodes)| + 1 < |nodes| && nodes[|old(nodes)| + 1].kind == NodeKind.CodeBatch
        && (Cur().token == Token.EndOfText || Cur().token in endsBlock)
    {
      if read !in moreText {
        GrownIsChanged(nodes, nodes, CurrentParent());
        return;
      }
      BuildModuleBodyNode();
    }

    /** The ModuleBody node of BuildModuleBody, over its CodeBatch, as the last child of the
        current parent. */
    method BuildModuleBodyNode()
      requires Ready()
      modifies this
      ensures StmtStep() && ChangedOnlyAt(old(nodes), nodes, old(CurrentParent()))
      ensures !hung ==>
        nodes[old(CurrentParent())].children == old(nodes[CurrentParent()].children) + [Some(|old(nodes)|)]
        && Heads(nodes, |old(nodes)|, NodeKind.ModuleBody, old(Cur()), [Some(|old(nodes)| + 1)])
        && |old(nodes)| + 1 < |nodes| && nodes[|old(nodes)| + 1].kind == NodeKind.CodeBatch
        && (Cur().token == Token.EndOfText || Cur().token in endsBlock)
    {
      var parent := CurrentParent();
      var body := BuildModuleBodyTree();
      if hung {
        GrownIsChanged(old(nodes), nodes, parent);
        return;
      }
      AttachGrown(parent, body, old(nodes));
    }

    /** A node built past `base` becomes the last child of a parent that was there. */
    method AttachGrown(parent: nat, child: nat, ghost base: seq<SyntaxNode>)
      requires Valid() && base <= nodes && parent < |base| <= child < |nodes|
      modifies this
      ensures Valid() && OnlyNodes() && ChangedOnlyAt(base, nodes, parent)
      ensures nodes[parent].children == base[parent].children + [Some(child)]
      ensures |nodes| == |old(nodes)| && nodes[child] == old(nodes[child])
      ensures child + 1 < |nodes| ==> nodes[child + 1] == old(nodes[child + 1])
    {
      ghost var n2 := nodes;
      AddChild(parent, Some(child));
      GrownThenAdded(base, n2, parent, Some(child));
      GrownThenAddedKeeps(base, n2, parent, Some(child), child);
      if child + 1 < |nodes| {
        GrownThenAddedKeeps(base, n2, parent, Some(child), child + 1);
      }
    }

    /** The ModuleBody node of BuildModuleBody, in no parent yet, over its CodeBatch. */
    method BuildModuleBodyTree() returns (body: nat)
      requires Ready()
      modifies this
      ensures StmtStep() && old(nodes) <= nodes
      ensures body == |old(nodes)| && Heads(nodes, body, NodeKind.ModuleBody, old(Cur()), [Some(body + 1)])
      ensures body + 1 < |nodes| && nodes[body + 1].kind == NodeKind.CodeBatch
      ensures !hung ==> Cur().token == Token.EndOfText || Cur().token in endsBlock
    {
      body := CreateNode(NodeKind.ModuleBody, Cur());
      ghost var n1 := nodes;
      var batch := BuildBatchWithContext(body, [Token.EndOfText]);
      GrownThenChangedAbove(old(nodes), n1, nodes, body);
      ChangedParent(n1, nodes, body, body);
      assert [] + [Some(batch)] == [Some(batch)];
    }

    /** ParseModuleSections: the variables, the methods and the body of the module, below the
        current parent; annotations still pending at the end are UnexpectedEof. */
    method ParseModuleSections()
      requires Ready()
      modifies this
      ensures SectionStep() && ChangedOnlyAt(old(nodes), nodes, old(CurrentParent()))
    {
      var parent := CurrentParent();
      ParseDeclarationSections();
      if hung {
        return;
      }
      ghost var n1 := nodes;
      ParseBodySection();
      ChangedTwice(old(nodes), n1, nodes, parent);
    }

    /** The variables and the methods of the module, below the current parent. */
    method ParseDeclarationSections()
      requires Ready()
      modifies this
      ensures SectionStep() && ChangedOnlyAt(old(nodes), nodes, old(CurrentParent()))
      ensures !hung ==> !scope.enableException
    {
      var parent := CurrentParent();
      BuildVariableSection();
      ghost var n1 := nodes;
      BuildMethodsSection();
      ChangedTwice(old(nodes), n1, nodes, parent);
    }

    /** The body of the module below the current parent, then the check that no annotation is
        left pending. */
    method ParseBodySection()
      requires Ready()
      modifies this
      ensures SectionStep() && ChangedOnlyAt(old(nodes), nodes, old(CurrentParent()))
    {
      BuildModuleBody();
      if hung {
        return;
      }
      CheckAnnotationsApplied();
    }

    /** The end of ParseModuleSections: annotations still pending, which no definition took, are
        UnexpectedEof. */
    method CheckAnnotationsApplied()
      requires Plain()
      modifies this
      ensures Valid() && ScopeKept() && nodes == old(nodes) && pending.None? && !hung && old(read) <= read
      ensures |annotations| > 0 ==> errors == old(errors) + [ParseError(UnexpectedEof, old(read))]
      ensures |annotations| == 0 ==> errors == old(errors) && read == old(read)
    {
      if |annotations| != 0 {
        AddError(UnexpectedEof);
      }
    }

    /** ParseDirectives: each preprocessor directive lexeme is handed to the builder, whose hook
        does nothing with it, so that a directive that is not the end of text is handed to it for
        ever; the end of text ends the loop. */
    method ParseDirectives()
      requires Valid() && !Stopped()
      modifies this
      ensures nodes == old(nodes) && read == old(read) && errors == old(errors) && scope == old(scope) && flags == old(flags) && annotations == old(annotations)
      ensures lastDereferenceIsWritable == old(lastDereferenceIsWritable) && pending == old(pending)
      ensures hung <==> old(Cur()).lexType == LexemType.PreprocessorDirective && old(Cur()).token != Token.EndOfText
    {
      if Cur().lexType == LexemType.PreprocessorDirective && Cur().token != Token.EndOfText {
        hung := true;
      }
    }

    /** The part of ParseStatefulModule inside the Module node's context: the directives, then the
        sections of the module. */
    method ParseStatefulContent()
      requires Ready()
      modifies this
      ensures SectionStep() && ChangedOnlyAt(old(nodes), nodes, old(CurrentParent()))
      ensures old(Cur()).lexType == LexemType.PreprocessorDirective && old(Cur()).token != Token.EndOfText ==>
        hung && nodes == old(nodes) && read == old(read) && errors == old(errors)
    {
      ParseDirectives();
      if hung {
        GrownIsChanged(nodes, nodes, CurrentParent());
        return;
      }
      ParseModuleSections();
    }

    /** The part of ParseCodeBatch inside the Module node's context: the directives, then the
        body of the module. */
    method ParseBatchContent()
      requires Ready()
      modifies this
      ensures SectionStep() && ChangedOnlyAt(old(nodes), nodes, old(CurrentParent()))
      ensures old(Cur()).lexType == LexemType.PreprocessorDirective && old(Cur()).token != Token.EndOfText ==>
        hung && nodes == old(nodes) && read == old(read) && errors == old(errors)
      ensures !hung && old(read) in moreText ==>
        nodes[old(CurrentParent())].children == old(nodes[CurrentParent()].children) + [Some(|old(nodes)|)]
        && Heads(nodes, |old(nodes)|, NodeKind.ModuleBody, old(Cur()), [Some(|old(nodes)| + 1)])
    {
      ghost var first, parent := Cur(), CurrentParent();
      ParseDirectives();
      assert Cur() == first && CurrentParent() == parent;
      if hung {
        GrownIsChanged(nodes, nodes, CurrentParent());
      } else {
        BuildModuleBody();
      }
    }

    /** ParseStatefulModule: the first lexeme is read, and a Module node on it, in no parent, is
        the current parent while the directives and the sections of the module are read. */
    method ParseStatefulModule() returns (root: nat)
      requires Valid() && !Stopped() && !scope.enableException
      modifies this
      ensures Valid() && Grown() && pending.None? && old(nodes) <= nodes
      ensures scope.contexts == old(scope.contexts) && scope.tokenStack == old(scope.tokenStack) && !scope.enableException
      ensures root == |old(nodes)| && Heads(nodes, root, NodeKind.Module, LexemAt(lexemes, NextRead(lexemes, old(read))), [])
      ensures var first := LexemAt(lexemes, NextRead(lexemes, old(read)));
        first.lexType == LexemType.PreprocessorDirective && first.token != Token.EndOfText ==>
          hung && nodes == old(nodes) + [SyntaxNode(NodeKind.Module, first, [])]
    {
      NextLexem();
      root := CreateNode(NodeKind.Module, Cur());
      PushContext(root);
      ghost var n1 := nodes;
      ParseStatefulContent();
      PopContext();
      GrownThenChangedAbove(old(nodes), n1, nodes, root);
      ChangedParent(n1, nodes, root, root);
    }

    /** ParseCodeBatch: the first lexeme is read, and a Module node on it, in no parent, is the
        current parent while the directives and the body of the module are read. */
    method ParseCodeBatch() returns (root: nat)
      requires Valid() && !Stopped() && !scope.enableException
      modifies this
      ensures Valid() && Grown() && pending.None? && old(nodes) <= nodes
      ensures scope.contexts == old(scope.contexts) && scope.tokenStack == old(scope.tokenStack) && !scope.enableException
      ensures var first := LexemAt(lexemes, NextRead(lexemes, old(read)));
        root == |old(nodes)| && Heads(nodes, root, NodeKind.Module, first, [])
        && (first.lexType == LexemType.PreprocessorDirective && first.token != Token.EndOfText ==>
              hung && nodes == old(nodes) + [SyntaxNode(NodeKind.Module, first, [])])
        && (!hung && NextRead(lexemes, old(read)) in moreText ==>
              Heads(nodes, root, NodeKind.Module, first, [Some(root + 1)])
              && Heads(nodes, root + 1, NodeKind.ModuleBody, first, [Some(root + 2)]))
    {
      NextLexem();
      root := CreateNode(NodeKind.Module, Cur());
      ghost var n1 := nodes;
      ParseBatchInContext(root);
      GrownThenChangedAbove(old(nodes), n1, nodes, root);
      ChangedParent(n1, nodes, root, root);
      assert [] + [Some(root + 1)] == [Some(root + 1)];
    }

    /** ParseCodeBatch with its Module node made: the node is the current parent while the
        directives and the body are read. */
    method ParseBatchInContext(root: nat)
      requires Valid() && !Stopped() && !scope.enableException && root < |nodes|
      modifies this
      ensures Valid() && Grown() && pending.None? && ChangedOnlyAt(old(nodes), nodes, root)
      ensures scope.contexts == old(scope.contexts) && scope.tokenStack == old(scope.tokenStack) && !scope.enableException
      ensures old(Cur()).lexType == LexemType.PreprocessorDirective && old(Cur()).token != Token.EndOfText ==>
        hung && nodes == old(nodes)
      ensures !hung && old(read) in moreText ==>
        nodes[root].children == old(nodes[root].children) + [Some(|old(nodes)|)]
        && Heads(nodes, |old(nodes)|, NodeKind.ModuleBody, old(Cur()), [Some(|old(nodes)| + 1)])
    {
      PushContext(root);
      ParseBatchContent();
      PopContext();
    }

    /** ParseExpression: the first lexeme is read, and a Module node on it, in no parent, takes
        the expression read up to the end of text as its child. */
    method ParseExpression() returns (root: nat)
      requires Valid() && !Stopped() && !scope.enableException
      modifies this
      ensures Valid() && Grown() && pending.None? && scope == old(scope) && flags == old(flags) && annotations == old(annotations) && old(nodes) <= nodes
      ensures var first := LexemAt(lexemes, NextRead(lexemes, old(read)));
        root == |old(nodes)| && Heads(nodes, root, NodeKind.Module, first, [])
        && (first.token == Token.EndOfText ==>
              nodes == old(nodes) + [SyntaxNode(NodeKind.Module, first, [])]
              && errors == old(errors) + [ParseError(ExpressionExpected, NextRead(lexemes, old(read)))])
        && (!hung && first.token != Token.EndOfText ==> |nodes[root].children| == 1)
    {
      NextLexem();
      root := CreateNode(NodeKind.Module, Cur());
      ghost var n1 := nodes;
      var expr := BuildExpression(root, Token.EndOfText);
      GrownThenChangedAbove(old(nodes), n1, nodes, root);
      ChangedParent(n1, nodes, root, root);
    }
  }
}

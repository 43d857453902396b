/**
 * The lexemes the parser reads, the node kinds it asks its builder for and
 * the errors it records. The lexer is not part of this model: the parser is
 * given the finished lexeme sequence, after which the lexer yields the end of
 * text for ever.
 */
module Lexemes {
  import opened Builtins

  datatype LexemType =
    | Identifier | Annotation | PreprocessorDirective | Operator | EndOperator
    | NumberLiteral | StringLiteral | DateLiteral | BooleanLiteral | UndefinedLiteral | NullLiteral
    | EndOfText

  /** The tokens the parser tests for; every other word or sign is one of the rest. */
  datatype Token =
    | NotAToken | EndOfText
    | Semicolon | Comma | Dot | OpenPar | ClosePar | OpenBracket | CloseBracket | Question
    | Equal | NotEqual | LessThan | LessOrEqual | MoreThan | MoreOrEqual
    | Plus | Minus | Multiply | Division | Modulo
    | Or | And | Not
    | VarDef | Export | Procedure | Function | EndProcedure | EndFunction | ByValParam
    | If | Then | Else | ElseIf | EndIf
    | While | For | Each | In | To | Loop | EndLoop | Break | Continue | Return
    | Try | Exception | EndTry | RaiseException | Execute | AddHandler | RemoveHandler
    | NewObject | ExceptionInfo
    | OtherToken(code: nat)

  /** A lexeme: its class, its token (NotAToken for names and literals) and its text. */
  datatype Lexem = Lexem(lexType: LexemType, token: Token, content: Text)

  /** What the lexer yields once the text is exhausted. */
  const EndLexem := Lexem(LexemType.EndOfText, Token.EndOfText, [])

  /** The node kinds (NodeKind) the parser and the directive handlers create. */
  datatype NodeKind =
    | Module | ModuleBody | VariablesSection | VariableDefinition | MethodsSection
    | Method | MethodSignature | Procedure | Function | MethodParameters | MethodParameter
    | ParameterDefaultValue | ByValModifier | ExportFlag | Identifier
    | Annotation | AnnotationParameter | AnnotationParameterName | AnnotationParameterValue
    | CodeBatch | BlockEnd | Condition | WhileLoop | ForLoop | ForEachLoop | ForInitializer | ForLimit
    | ForEachVariable | ForEachCollection | BreakStatement | ContinueStatement | ReturnStatement
    | Assignment | GlobalCall | MethodCall | CallArgumentList | CallArgument
    | DereferenceOperation | IndexAccess | BinaryOperation | UnaryOperation | Constant
    | TernaryOperator | NewObject | Preprocessor | Unknown

  /** The messages of LocalizedErrors the parser records. */
  datatype ErrorKind =
    | UnexpectedEof | LateVarDefinition | ExportedLocalVar(name: Text) | SemicolonExpected
    | IdentifierExpected | TokenExpected(expected: seq<Token>) | NumberExpected | LiteralExpected
    | UnexpectedOperation | BreakOutsideOfLoop | ContinueOutsideLoop | FuncEmptyReturnValue
    | ProcReturnsAValue | ReturnOutsideOfMethod | ExpressionSyntax | ExpressionExpected

  /** A recorded error and the lexer position (the number of lexemes read) it was stamped with. */
  datatype ParseError = ParseError(error: ErrorKind, position: nat)
}

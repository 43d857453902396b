/**
 * The pure rules DefaultBslParser follows: what the lexer yields after a
 * number of reads, which lexemes LanguageDef classifies as literals and
 * names, where error recovery stops skipping, which signs each binary
 * level accepts, and what becomes of a default parameter value.
 */
module ParseRules {
  import opened Wrappers
  import opened Builtins
  import opened Lexemes

  /** The current lexeme once `read` lexemes have been taken: the lexer yields the lexemes in
      order and the end of text for ever after them (and nothing has been read at 0). */
  function LexemAt(lexemes: seq<Lexem>, read: nat): Lexem
  {
    if 0 < read <= |lexemes| then lexemes[read - 1] else EndLexem
  }

  /** The lexer position after one more NextLexem: at the end of text it stays. */
  function NextRead(lexemes: seq<Lexem>, read: nat): nat
  {
    if read <= |lexemes| then read + 1 else read
  }

  /** A current lexeme other than the end of text is consumed by NextLexem. */
  lemma NextReadAdvances(lexemes: seq<Lexem>, read: nat)
    requires LexemAt(lexemes, read).token != Token.EndOfText
    ensures NextRead(lexemes, read) == read + 1 && read <= |lexemes|
    ensures LexemAt(lexemes, read + 1) == (if read < |lexemes| then lexemes[read] else EndLexem)
  {
  }

  /** LanguageDef.IsLiteral: a number, string, date, boolean, undefined or null literal. */
  predicate IsLiteral(l: Lexem)
  {
    l.lexType == LexemType.NumberLiteral || l.lexType == LexemType.StringLiteral
    || l.lexType == LexemType.DateLiteral || l.lexType == LexemType.BooleanLiteral
    || l.lexType == LexemType.UndefinedLiteral || l.lexType == LexemType.NullLiteral
  }

  /** LanguageDef.IsUserSymbol: a name that is not a keyword. */
  predicate IsUserSymbol(l: Lexem)
  {
    l.lexType == LexemType.Identifier && l.token == Token.NotAToken
  }

  /** LanguageDef.IsIdentifier: any word, keywords included (a property after a dot). */
  predicate IsIdentifier(l: Lexem)
  {
    l.lexType == LexemType.Identifier
  }

  /** The end of text is none of them. */
  lemma EndIsNoWord()
    ensures !IsLiteral(EndLexem) && !IsUserSymbol(EndLexem) && !IsIdentifier(EndLexem)
  {
  }

  // ---------------------------------------------------------------- error recovery

  /** The stop tokens of AddError's skip: the innermost expected-terminator set, if any. */
  function Stops(tokenStack: seq<seq<Token>>): seq<Token>
  {
    if |tokenStack| > 0 then tokenStack[|tokenStack| - 1] else []
  }

  /** Where SkipToNextStatement leaves the lexer when it starts at `read`. */
  function SkipTarget(lexemes: seq<Lexem>, read: nat, stops: seq<Token>, begins: set<Token>): nat
    decreases |lexemes| + 1 - read
  {
    var t := LexemAt(lexemes, read).token;
    if t == Token.EndOfText || t in begins then read
    else if LexemAt(lexemes, read + 1).token in stops then read + 1
    else SkipTarget(lexemes, read + 1, stops, begins)
  }

  /** The skip lands on the first lexeme from the start on that is the end of text or begins a
      statement, unless a lexeme after the start is a stop token first; it passes over nothing
      of either kind. */
  lemma {:induction false} SkipTargetRules(lexemes: seq<Lexem>, read: nat, stops: seq<Token>, begins: set<Token>)
    ensures var r := SkipTarget(lexemes, read, stops, begins);
      var t := LexemAt(lexemes, r).token;
      read <= r && (read <= |lexemes| + 1 ==> r <= |lexemes| + 1)
      && (t == Token.EndOfText || t in begins || (read < r && t in stops))
      && (forall j :: read <= j < r ==>
            LexemAt(lexemes, j).token != Token.EndOfText && LexemAt(lexemes, j).token !in begins
            && (read < j ==> LexemAt(lexemes, j).token !in stops))
    decreases |lexemes| + 1 - read
  {
    var t := LexemAt(lexemes, read).token;
    if t == Token.EndOfText || t in begins {
    } else if LexemAt(lexemes, read + 1).token in stops {
    } else {
      SkipTargetRules(lexemes, read + 1, stops, begins);
    }
  }

  // ---------------------------------------------------------------- operator levels

  /** The binary levels of the precedence chain, loosest first. */
  datatype Level = OrLevel | AndLevel | ComparisonLevel | AdditionLevel | ProductLevel

  /** The signs a level combines its operands with. */
  predicate LevelSign(level: Level, t: Token)
  {
    match level
    case OrLevel => t == Token.Or
    case AndLevel => t == Token.And
    case ComparisonLevel => ComparisonSign(t)
    case AdditionLevel => AdditiveSign(t)
    case ProductLevel => ProductSign(t)
  }

  /** The comparison signs of BuildLogicalComparison. */
  predicate ComparisonSign(t: Token)
  {
    t == Token.LessThan || t == Token.LessOrEqual || t == Token.MoreThan
    || t == Token.MoreOrEqual || t == Token.Equal || t == Token.NotEqual
  }

  /** The signs of BuildAddition. */
  predicate AdditiveSign(t: Token)
  {
    t == Token.Plus || t == Token.Minus
  }

  /** The multiplicative signs of the language. */
  predicate ProductSign(t: Token)
  {
    t == Token.Multiply || t == Token.Division || t == Token.Modulo
  }

  /** The signs BuildMultiplication tests for, as written: Multiply twice, then Modulo. */
  predicate ProductSignAsWritten(t: Token)
  {
    t == Token.Multiply || t == Token.Multiply || t == Token.Modulo
  }

  /** The test as written accepts only multiplicative signs, and misses exactly Division. */
  lemma ProductSignsDiffer(t: Token)
    ensures ProductSignAsWritten(t) ==> ProductSign(t)
    ensures ProductSign(t) && !ProductSignAsWritten(t) <==> t == Token.Division
  {
  }

  // ---------------------------------------------------------------- default parameter values

  /** The minus sign prefixed to a negative number literal. */
  const MinusSign: Char16 := 0x2D

  /** What BuildDefaultParameterValue makes of the lexeme after an optional sign: anything but a
      literal is LiteralExpected; a sign before a string or date literal is NumberExpected; a
      minus before a number literal is prefixed to its text; any other sign is dropped. */
  function DefaultValue(hasSign: bool, signIsMinus: bool, l: Lexem): Result<Lexem, ErrorKind>
  {
    if !IsLiteral(l) then Err(LiteralExpected)
    else if hasSign && l.lexType == LexemType.NumberLiteral && signIsMinus then
      Ok(l.(content := [MinusSign] + l.content))
    else if hasSign && (l.lexType == LexemType.StringLiteral || l.lexType == LexemType.DateLiteral) then
      Err(NumberExpected)
    else Ok(l)
  }

  /** A default value is accepted exactly when it is a literal with no sign, or a literal other
      than a string or date with one; it keeps its class and token, and its text changes exactly
      when a minus precedes a number. */
  lemma DefaultValueRules(hasSign: bool, signIsMinus: bool, l: Lexem)
    ensures var r := DefaultValue(hasSign, signIsMinus, l);
      (r.Ok? <==> IsLiteral(l) && !(hasSign && (l.lexType == LexemType.StringLiteral || l.lexType == LexemType.DateLiteral)))
      && (r == Err(LiteralExpected) <==> !IsLiteral(l))
      && (r.Ok? ==> (r.value.lexType == l.lexType && r.value.token == l.token
            && (r.value.content != l.content <==> hasSign && signIsMinus && l.lexType == LexemType.NumberLiteral)
            && (r.value.content != l.content ==> r.value.content == [MinusSign] + l.content)))
  {
    var r := DefaultValue(hasSign, signIsMinus, l);
    if r.Ok? && hasSign && signIsMinus && l.lexType == LexemType.NumberLiteral {
      assert |r.value.content| == |l.content| + 1;
    }
  }
}

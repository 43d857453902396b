/**
 * ImportDirectivesHandler: the handler of the `#Использовать` / `#Use`
 * directive. It is enabled while a module is being parsed; the directive
 * takes exactly one library name on its line and becomes a Preprocessor
 * node, with the name as its one Unknown child, under the current context
 * node.
 *
 * The handler reads the library name with its own word lexer over the
 * shared source iterator; that lexer is not part of this model. The handler
 * is given what it would yield: the next word (None at the end of the text),
 * whether a further word follows on the same line, and the lexeme the
 * parser's lexer yields next.
 */
module ImportDirectives {
  import opened Wrappers
  import opened Builtins
  import opened Lexemes
  import opened SyntaxTree

  datatype ImportError =
    | DirectiveNotSupported(directive: Text)    // the handler is disabled
    | LibraryNameExpected                       // "Ожидается имя библиотеки"
    | UnexpectedOperation                       // a second word on the directive's line

  /** "использовать", as UTF-16 code units. */
  const UseRu: Text := [0x0438, 0x0441, 0x043F, 0x043E, 0x043B, 0x044C, 0x0437, 0x043E, 0x0432, 0x0430, 0x0442, 0x044C]
  /** "use". */
  const UseEn: Text := [0x0075, 0x0073, 0x0065]

  /** DirectiveSupported: the directive's name is one of the two spellings, compared under `fold`,
      the invariant culture's case folding. */
  predicate DirectiveSupported(fold: Text -> Text, directive: Text)
  {
    fold(directive) == fold(UseRu) || fold(directive) == fold(UseEn)
  }

  /** What HandleDirective did, for the parser: the answer, and the lexeme that is now current. */
  datatype Outcome = Outcome(handled: bool, current: Lexem)

  class ImportDirectivesHandler {
    const fold: Text -> Text
    var enabled: bool

    constructor (fold: Text -> Text)
      ensures this.fold == fold && !enabled
    {
      this.fold := fold;
      enabled := false;
    }

    /** OnModuleEnter: the handler is enabled. */
    method OnModuleEnter()
      modifies this
      ensures enabled
    {
      enabled := true;
    }

    /** OnModuleLeave: the handler is disabled. */
    method OnModuleLeave()
      modifies this
      ensures !enabled
    {
      enabled := false;
    }

    /** HandleDirective for the directive lexeme `directive`, with `contextNode` the top of the
        parser's node context. */
    method HandleDirective(tree: TreeBuilder, contextNode: nat, directive: Lexem,
                           libraryName: Option<Lexem>, moreOnLine: bool, nextLexem: Lexem)
      returns (r: Result<Outcome, ImportError>)
      requires contextNode < |tree.nodes|
      modifies tree
      // disabled: raises before the directive is looked at
      ensures !enabled ==> r == Err(DirectiveNotSupported(directive.content)) && tree.nodes == old(tree.nodes)
      // another directive: declined, nothing changes
      ensures enabled && !DirectiveSupported(fold, directive.content) ==>
        r == Ok(Outcome(false, directive)) && tree.nodes == old(tree.nodes)
      // no library name: raises, with the directive's node made but attached nowhere
      ensures enabled && DirectiveSupported(fold, directive.content) && libraryName.None? ==>
        r == Err(LibraryNameExpected)
        && tree.nodes == old(tree.nodes) + [SyntaxNode(NodeKind.Preprocessor, directive, [])]
      // a name: the node, with the name as its one child, goes under the context node
      ensures enabled && DirectiveSupported(fold, directive.content) && libraryName.Some? ==>
        var n := |old(tree.nodes)|;
        tree.nodes == WithChild(old(tree.nodes) + [SyntaxNode(NodeKind.Preprocessor, directive, [Some(n + 1)]),
                                                SyntaxNode(NodeKind.Unknown, libraryName.value, [])],
                                contextNode, Some(n))
        && r == (if moreOnLine then Err(ImportError.UnexpectedOperation) else Ok(Outcome(true, nextLexem)))
    {
      if !enabled {
        return Err(DirectiveNotSupported(directive.content));
      }
      if !DirectiveSupported(fold, directive.content) {
        return Ok(Outcome(false, directive));
      }
      var node := tree.CreateNode(NodeKind.Preprocessor, directive);
      if libraryName.None? {
        return Err(LibraryNameExpected);
      }
      var argumentNode := tree.CreateNode(NodeKind.Unknown, libraryName.value);
      ghost var made := tree.nodes;
      tree.AddChild(node, Some(argumentNode));
      assert made[node].children + [Some(argumentNode)] == [Some(argumentNode)];
      assert tree.nodes == old(tree.nodes) + [SyntaxNode(NodeKind.Preprocessor, directive, [Some(argumentNode)]),
                                              SyntaxNode(NodeKind.Unknown, libraryName.value, [])];
      tree.AddChild(contextNode, Some(node));
      if moreOnLine {
        return Err(ImportError.UnexpectedOperation);
      }
      r := Ok(Outcome(true, nextLexem));
    }
  }

  /** After a directive is handled, the context node's last child is the new directive node, which
      holds the library name and nothing else; the nodes that were there before are unchanged
      except for that one appended child. */
  lemma HandledDirectiveShape(nodes: seq<SyntaxNode>, contextNode: nat, directive: Lexem, name: Lexem)
    requires contextNode < |nodes|
    ensures var n := |nodes|;
      var r := WithChild(nodes + [SyntaxNode(NodeKind.Preprocessor, directive, [Some(n + 1)]),
                                  SyntaxNode(NodeKind.Unknown, name, [])], contextNode, Some(n));
      |r| == n + 2
      && r[contextNode].children == nodes[contextNode].children + [Some(n)]
      && r[n] == SyntaxNode(NodeKind.Preprocessor, directive, [Some(n + 1)])
      && r[n + 1] == SyntaxNode(NodeKind.Unknown, name, [])
      && forall i :: 0 <= i < n && i != contextNode ==> r[i] == nodes[i]
  {
  }

  /** Both spellings are supported, in any case that folds to them. */
  lemma BothSpellingsSupported(fold: Text -> Text, directive: Text)
    requires fold(directive) == fold(UseRu) || fold(directive) == fold(UseEn)
    ensures DirectiveSupported(fold, directive)
    ensures DirectiveSupported(fold, UseRu) && DirectiveSupported(fold, UseEn)
  {
  }
}

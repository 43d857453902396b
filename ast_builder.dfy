/**
 * DefaultAstBuilder: the IAstBuilder that makes a leaf TerminalNode for the
 * six kinds that never have children, the dedicated node classes for
 * annotations and their parameters, and an empty NonTerminalNode (which
 * keeps neither the kind nor the lexeme it was asked for) for every other
 * kind. Nodes live in an arena; a reference is the node's index.
 */
module DefaultAst {
  import opened Wrappers
  import opened Lexemes

  /** The class of a non-terminal node. */
  datatype NodeClass = AnnotationNode | AnnotationParameterNode | NonTerminalNode

  datatype AstNode =
    | TerminalNode(kind: NodeKind, lexem: Lexem)
    | NonTerminal(nodeClass: NodeClass, children: seq<Option<nat>>)

  /** The cast in AddChild fails on a TerminalNode parent (InvalidCastException). */
  datatype BuildError = InvalidCast

  predicate IsTerminalKind(kind: NodeKind)
  {
    kind == NodeKind.Identifier || kind == NodeKind.Constant || kind == NodeKind.ExportFlag
    || kind == NodeKind.ByValModifier || kind == NodeKind.AnnotationParameterName
    || kind == NodeKind.AnnotationParameterValue
  }

  /** MakeNonTerminal: the node class for a kind that is not terminal. */
  function MakeNonTerminal(kind: NodeKind): (n: AstNode)
    ensures n.NonTerminal? && n.children == []
    ensures n.nodeClass == AnnotationNode <==> kind == NodeKind.Annotation
    ensures n.nodeClass == AnnotationParameterNode <==> kind == NodeKind.AnnotationParameter
  {
    if kind == NodeKind.Annotation then NonTerminal(AnnotationNode, [])
    else if kind == NodeKind.AnnotationParameter then NonTerminal(AnnotationParameterNode, [])
    else NonTerminal(NonTerminalNode, [])
  }

  /** The node CreateNode makes for a kind and a start lexeme. */
  function NewNode(kind: NodeKind, lexem: Lexem): (n: AstNode)
    ensures n.TerminalNode? <==> IsTerminalKind(kind)
    ensures n.TerminalNode? ==> n.kind == kind && n.lexem == lexem
    ensures n.NonTerminal? ==> n == MakeNonTerminal(kind)
  {
    if IsTerminalKind(kind) then TerminalNode(kind, lexem) else MakeNonTerminal(kind)
  }

  /** Two plain non-terminal kinds give nodes that cannot be told apart. */
  lemma PlainNonTerminalsForgetKind(k1: NodeKind, l1: Lexem, k2: NodeKind, l2: Lexem)
    requires !IsTerminalKind(k1) && !IsTerminalKind(k2)
    requires k1 != NodeKind.Annotation && k1 != NodeKind.AnnotationParameter
    requires k2 != NodeKind.Annotation && k2 != NodeKind.AnnotationParameter
    ensures NewNode(k1, l1) == NewNode(k2, l2)
  {
  }

  /** The arena after a successful AddChild: the child goes last among the parent's children. */
  function AppendChild(nodes: seq<AstNode>, parent: nat, child: Option<nat>): (r: seq<AstNode>)
    requires parent < |nodes| && nodes[parent].NonTerminal?
    ensures |r| == |nodes| && r[parent].NonTerminal?
  {
    nodes[parent := nodes[parent].(children := nodes[parent].children + [child])]
  }

  /** Children keep insertion order, and no other node changes. */
  lemma AppendChildInOrder(nodes: seq<AstNode>, parent: nat, a: Option<nat>, b: Option<nat>)
    requires parent < |nodes| && nodes[parent].NonTerminal?
    ensures var r := AppendChild(AppendChild(nodes, parent, a), parent, b);
      r[parent].children == nodes[parent].children + [a, b]
      && r[parent].nodeClass == nodes[parent].nodeClass
      && forall i :: 0 <= i < |nodes| && i != parent ==> r[i] == nodes[i]
  {
  }

  class DefaultAstBuilder {
    var nodes: seq<AstNode>

    constructor ()
      ensures nodes == []
    {
      nodes := [];
    }

    /** CreateNode: a leaf for the terminal kinds, a childless non-terminal for the others. */
    method CreateNode(kind: NodeKind, lexem: Lexem) returns (id: nat)
      modifies this
      ensures id == |old(nodes)| && nodes == old(nodes) + [NewNode(kind, lexem)]
    {
      id := |nodes|;
      if IsTerminalKind(kind) {
        nodes := nodes + [TerminalNode(kind, lexem)];
      } else {
        nodes := nodes + [MakeNonTerminal(kind)];
      }
    }

    /** AddChild: the parent is cast to a non-terminal, which fails for a leaf; otherwise the
        child is appended to its children. */
    method AddChild(parent: nat, child: Option<nat>) returns (raised: Option<BuildError>)
      requires parent < |nodes|
      modifies this
      ensures old(nodes)[parent].TerminalNode? ==> raised == Some(InvalidCast) && nodes == old(nodes)
      ensures old(nodes)[parent].NonTerminal? ==> raised.None? && nodes == AppendChild(old(nodes), parent, child)
    {
      if nodes[parent].TerminalNode? {
        return Some(InvalidCast);
      }
      nodes := nodes[parent := nodes[parent].(children := nodes[parent].children + [child])];
      raised := None;
    }

    /** HandleParseError: nothing happens. */
    method HandleParseError(err: ParseError, lexem: Lexem)
    {
    }

    /** PreprocessorDirective: nothing happens; in particular the lexeme passed by reference is
        handed back as it came. */
    method PreprocessorDirective(lastExtracted: Lexem) returns (after: Lexem)
      ensures after == lastExtracted
    {
      after := lastExtracted;
    }
  }
}

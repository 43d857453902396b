/**
 * The syntax tree as the parser builds it through IAstBuilder: every
 * CreateNode call makes a node with the requested kind and start lexeme,
 * and every AddChild call appends a child reference to a node. Nodes are
 * objects in the source; here they live in an arena and a reference is the
 * node's index, with None for a null reference. The builder's two hooks do
 * nothing, as DefaultAstBuilder's do.
 */
module SyntaxTree {
  import opened Wrappers
  import opened Lexemes

  datatype SyntaxNode = SyntaxNode(kind: NodeKind, lexem: Lexem, children: seq<Option<nat>>)

  /** The arena after AddChild(parent, child): the parent's children grow by the child, in order. */
  function WithChild(nodes: seq<SyntaxNode>, parent: nat, child: Option<nat>): (r: seq<SyntaxNode>)
    requires parent < |nodes|
    ensures |r| == |nodes|
  {
    nodes[parent := nodes[parent].(children := nodes[parent].children + [child])]
  }

  /** The arena after AddChild(parent, c) for every c of `cs`, in order. */
  function WithChildren(nodes: seq<SyntaxNode>, parent: nat, cs: seq<Option<nat>>): (r: seq<SyntaxNode>)
    requires parent < |nodes|
    ensures |r| == |nodes|
  {
    nodes[parent := nodes[parent].(children := nodes[parent].children + cs)]
  }

  /** Appending no children changes nothing; one more AddChild appends one more. */
  lemma WithChildrenStep(nodes: seq<SyntaxNode>, parent: nat, cs: seq<Option<nat>>, c: Option<nat>)
    requires parent < |nodes|
    ensures WithChildren(nodes, parent, []) == nodes
    ensures WithChild(WithChildren(nodes, parent, cs), parent, c) == WithChildren(nodes, parent, cs + [c])
  {
    assert nodes[parent].children + [] == nodes[parent].children;
    assert nodes[parent].children + cs + [c] == nodes[parent].children + (cs + [c]);
  }

  /** AddChild changes no node but the parent, and not the parent's kind or lexeme. */
  lemma WithChildTouchesParentOnly(nodes: seq<SyntaxNode>, parent: nat, child: Option<nat>)
    requires parent < |nodes|
    ensures var r := WithChild(nodes, parent, child);
      (forall i :: 0 <= i < |nodes| && i != parent ==> r[i] == nodes[i])
      && r[parent].kind == nodes[parent].kind && r[parent].lexem == nodes[parent].lexem
      && r[parent].children == nodes[parent].children + [child]
  {
  }

  /** Two AddChild calls on one parent leave the children in call order. */
  lemma ChildrenInCallOrder(nodes: seq<SyntaxNode>, parent: nat, a: Option<nat>, b: Option<nat>)
    requires parent < |nodes|
    ensures WithChild(WithChild(nodes, parent, a), parent, b)[parent].children
      == nodes[parent].children + [a, b]
  {
  }

  /** AddChild on the node just created: that node, with the child appended, is the last one. */
  lemma WithChildOfLast(nodes: seq<SyntaxNode>, node: SyntaxNode, child: Option<nat>)
    ensures WithChild(nodes + [node], |nodes|, child) == nodes + [node.(children := node.children + [child])]
  {
  }

  /** Node `n` exists, with this kind and lexeme, and its children begin with `first`. */
  predicate Heads(nodes: seq<SyntaxNode>, n: nat, kind: NodeKind, lexem: Lexem, first: seq<Option<nat>>)
  {
    n < |nodes| && nodes[n].kind == kind && nodes[n].lexem == lexem && first <= nodes[n].children
  }

  /** Growth that keeps every node, or a change at the node itself, keeps what it starts with. */
  lemma HeadsKept(a: seq<SyntaxNode>, b: seq<SyntaxNode>, n: nat, kind: NodeKind, lexem: Lexem, first: seq<Option<nat>>)
    requires Heads(a, n, kind, lexem, first) && (a <= b || ChangedOnlyAt(a, b, n))
    ensures Heads(b, n, kind, lexem, first)
  {
    assert b[..|a|][n] == b[n];
  }

  /** The children of the node from `from` on are nodes of the given kind. */
  ghost predicate ChildrenOfKind(nodes: seq<SyntaxNode>, node: nat, from: nat, kind: NodeKind)
    requires node < |nodes|
  {
    forall i :: from <= i < |nodes[node].children| ==>
      nodes[node].children[i].Some? && nodes[node].children[i].value < |nodes|
      && nodes[nodes[node].children[i].value].kind == kind
  }

  /** A change at the node that appends one child of the kind keeps its children of the kind. */
  lemma ChildrenOfKindKept(a: seq<SyntaxNode>, b: seq<SyntaxNode>, node: nat, from: nat, kind: NodeKind)
    requires ChangedOnlyAt(a, b, node) && ChildrenOfKind(a, node, from, kind)
    requires var c := b[node].children;
      |c| == |a[node].children| + 1 && c[|c| - 1].Some? && c[|c| - 1].value < |b| && b[c[|c| - 1].value].kind == kind
    ensures ChildrenOfKind(b, node, from, kind)
  {
    forall i | from <= i < |b[node].children| - 1
      ensures b[node].children[i].Some? && b[node].children[i].value < |b|
        && b[b[node].children[i].value].kind == kind
    {
      assert b[node].children[i] == a[node].children[i];
      ChangedParent(a, b, node, a[node].children[i].value);
    }
  }

  /** Node references as child references, in the same order. */
  function Refs(ids: seq<nat>): (r: seq<Option<nat>>)
    ensures |r| == |ids| && forall i :: 0 <= i < |ids| ==> r[i] == Some(ids[i])
  {
    if |ids| == 0 then [] else Refs(ids[..|ids| - 1]) + [Some(ids[|ids| - 1])]
  }

  /** A reference that is null or names a node of the arena. */
  predicate ValidRef(nodes: seq<SyntaxNode>, r: Option<nat>)
  {
    r.None? || r.value < |nodes|
  }

  /** `after` keeps every node of `before` except that the children of `parent` may have grown,
      and it may hold more nodes after them: what a builder step that adds below `parent` leaves. */
  predicate ChangedOnlyAt(before: seq<SyntaxNode>, after: seq<SyntaxNode>, parent: nat)
  {
    parent < |before| <= |after| && before[parent].children <= after[parent].children
    && after[..|before|] == before[parent := before[parent].(children := after[parent].children)]
  }

  /** The changed node keeps its kind and lexeme, and nodes below the parent are as they were. */
  lemma ChangedParent(a: seq<SyntaxNode>, b: seq<SyntaxNode>, parent: nat, q: nat)
    requires ChangedOnlyAt(a, b, parent) && q < |a|
    ensures b[parent] == a[parent].(children := b[parent].children)
    ensures q != parent ==> b[q] == a[q]
  {
    assert b[parent] == b[..|a|][parent];
    assert b[q] == b[..|a|][q];
  }

  /** A change at a node keeps each child it had. */
  lemma ChildKept(a: seq<SyntaxNode>, b: seq<SyntaxNode>, parent: nat, k: nat)
    requires ChangedOnlyAt(a, b, parent) && k < |a[parent].children|
    ensures k < |b[parent].children| && b[parent].children[k] == a[parent].children[k]
  {
  }

  /** AddChild changes only the parent, by one child at the end. */
  lemma WithChildChangesOnlyParent(nodes: seq<SyntaxNode>, parent: nat, child: Option<nat>)
    requires parent < |nodes|
    ensures ChangedOnlyAt(nodes, WithChild(nodes, parent, child), parent)
  {
    var r := WithChild(nodes, parent, child);
    assert r[..|nodes|] == r;
  }

  /** A change at one node followed by growth that keeps every node is a change at that node. */
  lemma ChangedThenGrown(a: seq<SyntaxNode>, b: seq<SyntaxNode>, c: seq<SyntaxNode>, parent: nat)
    requires ChangedOnlyAt(a, b, parent) && b <= c
    ensures ChangedOnlyAt(a, c, parent) && c[parent] == b[parent]
  {
    assert c[..|b|] == b;
    assert c[..|a|] == b[..|a|];
  }

  /** Two changes at the same node are one. */
  lemma ChangedTwice(a: seq<SyntaxNode>, b: seq<SyntaxNode>, c: seq<SyntaxNode>, parent: nat)
    requires ChangedOnlyAt(a, b, parent) && ChangedOnlyAt(b, c, parent)
    ensures ChangedOnlyAt(a, c, parent)
  {
    assert c[..|a|] == c[..|b|][..|a|];
  }

  /** A change at a node made after `a` keeps every node of `a`. */
  lemma GrownThenChangedAbove(a: seq<SyntaxNode>, b: seq<SyntaxNode>, c: seq<SyntaxNode>, q: nat)
    requires a <= b && ChangedOnlyAt(b, c, q) && |a| <= q
    ensures a <= c
  {
    assert c[..|a|] == c[..|b|][..|a|];
    assert b[..|a|] == a;
  }

  /** A change at one node followed by a change at a node made after `a` is a change at the
      first node, which the second leaves as it was. */
  lemma ChangedThenChangedAbove(a: seq<SyntaxNode>, b: seq<SyntaxNode>, c: seq<SyntaxNode>, parent: nat, q: nat)
    requires ChangedOnlyAt(a, b, parent) && ChangedOnlyAt(b, c, q) && |a| <= q
    ensures ChangedOnlyAt(a, c, parent) && c[parent] == b[parent]
  {
    assert c[..|a|] == c[..|b|][..|a|];
  }

  /** Growth that keeps every node is a change at any node that existed. */
  lemma GrownIsChanged(a: seq<SyntaxNode>, b: seq<SyntaxNode>, parent: nat)
    requires a <= b && parent < |a|
    ensures ChangedOnlyAt(a, b, parent) && b[parent] == a[parent]
  {
    assert b[..|a|] == a;
    assert a[parent := a[parent].(children := b[parent].children)] == a;
  }

  /** Growth that keeps every node, then AddChild on a node that existed: one more child there. */
  lemma GrownThenAdded(a: seq<SyntaxNode>, b: seq<SyntaxNode>, parent: nat, child: Option<nat>)
    requires a <= b && parent < |a|
    ensures ChangedOnlyAt(a, WithChild(b, parent, child), parent)
    ensures WithChild(b, parent, child)[parent].children == a[parent].children + [child]
  {
    assert b[..|a|] == a;
    assert WithChild(b, parent, child)[..|a|] == WithChild(a, parent, child);
  }

  /** Growth, then AddChild on a node that existed: the nodes made in the growth are kept. */
  lemma GrownThenAddedKeeps(a: seq<SyntaxNode>, b: seq<SyntaxNode>, parent: nat, child: Option<nat>, q: nat)
    requires a <= b && parent < |a| <= q < |b|
    ensures WithChild(b, parent, child)[q] == b[q]
  {
  }

  /** AddChild on a node made after `a` keeps every node of `a`; so does appending a node. */
  lemma AddedAbove(a: seq<SyntaxNode>, b: seq<SyntaxNode>, q: nat, child: Option<nat>, node: SyntaxNode)
    requires a <= b && |a| <= q < |b|
    ensures a <= WithChild(b, q, child) && a <= b + [node]
  {
    assert b[..|a|] == a;
    assert WithChild(b, q, child)[..|a|] == a;
    assert (b + [node])[..|a|] == a;
  }

  class TreeBuilder {
    var nodes: seq<SyntaxNode>

    constructor ()
      ensures nodes == []
    {
      nodes := [];
    }

    /** CreateNode: a new node with no children, not yet attached to any parent. */
    method CreateNode(kind: NodeKind, lexem: Lexem) returns (id: nat)
      modifies this
      ensures id == |old(nodes)| && nodes == old(nodes) + [SyntaxNode(kind, lexem, [])]
    {
      id := |nodes|;
      nodes := nodes + [SyntaxNode(kind, lexem, [])];
    }

    /** AddChild: the child reference is appended to the parent's children. */
    method AddChild(parent: nat, child: Option<nat>)
      requires parent < |nodes|
      modifies this
      ensures nodes == WithChild(old(nodes), parent, child)
    {
      nodes := WithChild(nodes, parent, child);
    }
  }
}

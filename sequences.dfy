/** Generic sequence functions shared by the modules of the model. */
module Sequences {
  /** The pieces f makes of each item, concatenated in order. */
  function FlatMap<A, B>(f: A -> seq<B>, items: seq<A>): seq<B>
  {
    if |items| == 0 then [] else FlatMap(f, items[..|items| - 1]) + f(items[|items| - 1])
  }

  /** Whatever f makes of one item is part of the whole. */
  lemma {:induction false} InFlatMap<A, B>(f: A -> seq<B>, items: seq<A>, i: nat, x: B)
    requires i < |items| && x in f(items[i])
    ensures x in FlatMap(f, items)
  {
    var n := |items| - 1;
    if i < n {
      InFlatMap(f, items[..n], i, x);
    }
  }

  /** The position of the first item p holds of, or -1 when it holds of none. */
  function FirstWhere<T>(p: T -> bool, s: seq<T>): (i: int)
    ensures -1 <= i < |s|
    ensures i >= 0 ==> p(s[i])
  {
    if |s| == 0 then -1
    else
      var k := FirstWhere(p, s[..|s| - 1]);
      if k >= 0 then k else if p(s[|s| - 1]) then |s| - 1 else -1
  }

  /** p holds of no item before the one FirstWhere finds, nor of any item when it finds none. */
  lemma {:induction false} FirstWhereIsFirst<T>(p: T -> bool, s: seq<T>)
    ensures var i := FirstWhere(p, s);
      forall j :: 0 <= j < |s| && (i < 0 || j < i) ==> !p(s[j])
  {
    if |s| > 0 {
      var n := |s| - 1;
      FirstWhereIsFirst(p, s[..n]);
      assert forall j :: 0 <= j < n ==> s[..n][j] == s[j];
    }
  }
}

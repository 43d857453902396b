/**
 * StatementBlocksWriter of the native compiler: a stack of statement
 * blocks, each carrying the jump labels (method return, loop break, loop
 * continue) that statements inside it may jump to. Labels are taken by
 * identity (a number); statements are opaque values.
 */
module BlocksWriter {
  import opened Wrappers

  type Label = nat

  /** JumpInformationRecord: a label is null (None) when the block does not set it. */
  datatype JumpRecord = JumpRecord(methodReturn: Option<Label>, loopBreak: Option<Label>, loopContinue: Option<Label>)

  /** StatementsBlockRecord: the block's jump labels and the statements added to it, in order. */
  datatype Block<S> = Block(jumps: JumpRecord, statements: seq<S>)

  /** Stack.Peek and Stack.Pop on an empty stack raise InvalidOperationException. */
  datatype WriterError = EmptyStack

  /** The `??=` assignments: a label the new record leaves null comes from the enclosing block. */
  function Inherit(entering: JumpRecord, current: JumpRecord): (r: JumpRecord)
    ensures entering.methodReturn.Some? ==> r.methodReturn == entering.methodReturn
    ensures entering.methodReturn.None? ==> r.methodReturn == current.methodReturn
    ensures entering.loopBreak.Some? ==> r.loopBreak == entering.loopBreak
    ensures entering.loopBreak.None? ==> r.loopBreak == current.loopBreak
    ensures entering.loopContinue.Some? ==> r.loopContinue == entering.loopContinue
    ensures entering.loopContinue.None? ==> r.loopContinue == current.loopContinue
  {
    JumpRecord(
      if entering.methodReturn.None? then current.methodReturn else entering.methodReturn,
      if entering.loopBreak.None? then current.loopBreak else entering.loopBreak,
      if entering.loopContinue.None? then current.loopContinue else entering.loopContinue)
  }

  predicate Complete(j: JumpRecord)
  {
    j.methodReturn.Some? && j.loopBreak.Some? && j.loopContinue.Some?
  }

  /** A label known in the enclosing block is known in every block entered inside it,
      and inheriting twice from the same block changes nothing more. */
  lemma InheritKeepsKnownLabels(entering: JumpRecord, current: JumpRecord)
    ensures current.methodReturn.Some? ==> Inherit(entering, current).methodReturn.Some?
    ensures current.loopBreak.Some? ==> Inherit(entering, current).loopBreak.Some?
    ensures current.loopContinue.Some? ==> Inherit(entering, current).loopContinue.Some?
    ensures Complete(current) ==> Complete(Inherit(entering, current))
    ensures Inherit(Inherit(entering, current), current) == Inherit(entering, current)
  {
  }

  /** A block entered inside a loop body that sets no loop labels of its own breaks and
      continues to the labels of the innermost enclosing loop. */
  lemma InheritedLoopLabels(outer: JumpRecord, loopLabels: JumpRecord, inner: JumpRecord)
    requires loopLabels.loopBreak.Some? && loopLabels.loopContinue.Some?
    requires inner.loopBreak.None? && inner.loopContinue.None?
    ensures Inherit(inner, Inherit(loopLabels, outer)).loopBreak == loopLabels.loopBreak
    ensures Inherit(inner, Inherit(loopLabels, outer)).loopContinue == loopLabels.loopContinue
  {
  }

  // ---------------------------------------------------------------- the stack as a value (top last)

  /** The stack after EnterBlock, when it is not empty. */
  function Entered<S>(blocks: seq<Block<S>>, entering: JumpRecord): seq<Block<S>>
    requires |blocks| > 0
  {
    blocks + [Block(Inherit(entering, blocks[|blocks| - 1].jumps), [])]
  }

  /** The stack after Add, when it is not empty: the statement goes to the top block only. */
  function Added<S>(blocks: seq<Block<S>>, s: S): seq<Block<S>>
    requires |blocks| > 0
  {
    var top := blocks[|blocks| - 1];
    blocks[..|blocks| - 1] + [Block(top.jumps, top.statements + [s])]
  }

  /** Leaving the block just entered gives back the stack as it was, and the block left holds
      the statements added meanwhile under the inherited labels. */
  lemma LeaveAfterEnter<S>(blocks: seq<Block<S>>, entering: JumpRecord, stmts: seq<S>)
    requires |blocks| > 0
    ensures var e := Entered(blocks, entering);
      var filled := AddedAll(e, stmts);
      |filled| == |blocks| + 1
      && filled[..|blocks|] == blocks
      && filled[|blocks|] == Block(Inherit(entering, blocks[|blocks| - 1].jumps), stmts)
  {
    AddedAllTop(Entered(blocks, entering), stmts);
    assert Entered(blocks, entering)[..|blocks|] == blocks;
  }

  /** Adding several statements in turn. */
  function AddedAll<S>(blocks: seq<Block<S>>, stmts: seq<S>): (r: seq<Block<S>>)
    requires |blocks| > 0
    ensures |r| == |blocks|
  {
    if |stmts| == 0 then blocks else Added(AddedAll(blocks, stmts[..|stmts| - 1]), stmts[|stmts| - 1])
  }

  /** Adds touch the top block only: the blocks under it stay as they were and the top block's
      statements grow by exactly the statements added, in order. */
  lemma {:induction false} AddedAllTop<S>(blocks: seq<Block<S>>, stmts: seq<S>)
    requires |blocks| > 0
    ensures var r := AddedAll(blocks, stmts);
      r[..|blocks| - 1] == blocks[..|blocks| - 1]
      && r[|blocks| - 1] == Block(blocks[|blocks| - 1].jumps, blocks[|blocks| - 1].statements + stmts)
  {
    if |stmts| > 0 {
      var n := |stmts| - 1;
      AddedAllTop(blocks, stmts[..n]);
      assert stmts[..n] + [stmts[n]] == stmts;
    } else {
      assert blocks[|blocks| - 1].statements + stmts == blocks[|blocks| - 1].statements;
    }
  }

  class StatementBlocksWriter<S> {
    /** The block stack, bottom first. */
    var blocks: seq<Block<S>>

    constructor ()
      ensures blocks == []
    {
      blocks := [];
    }

    /** GetCurrentBlock (Stack.Peek): the top block. */
    function GetCurrentBlock(): (r: Result<Block<S>, WriterError>)
      reads this
      ensures r.Ok? <==> |blocks| > 0
      ensures r.Ok? ==> r.value == blocks[|blocks| - 1]
    {
      if |blocks| == 0 then Err(EmptyStack) else Ok(blocks[|blocks| - 1])
    }

    /** EnterBlock: the new labels are completed from the current block and a block with them is
        pushed; with no current block the peek raises and nothing changes. The completed record
        is returned, since the source completes the caller's record in place. */
    method EnterBlock(entering: JumpRecord) returns (r: Result<JumpRecord, WriterError>)
      modifies this
      ensures |old(blocks)| == 0 ==> r == Err(EmptyStack) && blocks == old(blocks)
      ensures |old(blocks)| > 0 ==> (r == Ok(Inherit(entering, old(blocks)[|old(blocks)| - 1].jumps))
        && blocks == Entered(old(blocks), entering))
    {
      var current := GetCurrentBlock();
      if current.Err? {
        return Err(current.error);
      }
      var jumps := Inherit(entering, current.value.jumps);
      blocks := blocks + [Block(jumps, [])];
      r := Ok(jumps);
    }

    /** LeaveBlock (Stack.Pop): the top block is taken off and returned. */
    method LeaveBlock() returns (r: Result<Block<S>, WriterError>)
      modifies this
      ensures |old(blocks)| == 0 ==> r == Err(EmptyStack) && blocks == old(blocks)
      ensures |old(blocks)| > 0 ==> (r == Ok(old(blocks)[|old(blocks)| - 1])
        && blocks == old(blocks)[..|old(blocks)| - 1])
    {
      if |blocks| == 0 {
        return Err(EmptyStack);
      }
      r := Ok(blocks[|blocks| - 1]);
      blocks := blocks[..|blocks| - 1];
    }

    /** Add: the statement is appended to the current block. */
    method Add(s: S) returns (raised: Option<WriterError>)
      modifies this
      ensures |old(blocks)| == 0 ==> raised == Some(EmptyStack) && blocks == old(blocks)
      ensures |old(blocks)| > 0 ==> raised.None? && blocks == Added(old(blocks), s)
    {
      if |blocks| == 0 {
        return Some(EmptyStack);
      }
      var top := blocks[|blocks| - 1];
      blocks := blocks[..|blocks| - 1] + [Block(top.jumps, top.statements + [s])];
      raised := None;
    }
  }
}

/**
 * Binding of the arguments of a script method call to the local variables of
 * the new execution frame (MachineInstance.SetExecutionFrame): which locals
 * share the caller's variable, which get a variable of their own and what
 * that variable first holds, and how new variables take cells of the
 * machine's variable heap.
 */
module FrameBinding {
  import opened Wrappers
  import opened Values
  import opened MachineState

  /** A declared parameter of a script method. */
  datatype ParamDef = ParamDef(explicitByVal: bool, hasDefault: bool, defaultValue: Value)

  /** How a local starts: sharing an existing variable, or as a new variable holding a value. */
  datatype LocalInit = Alias(cell: nat) | NewCell(value: Value)

  /** The value of an omitted parameter: its declared default, or Undefined. */
  function DefaultOf(p: ParamDef): Value
  {
    if p.hasDefault then p.defaultValue else Undefined
  }

  /** The local bound to one passed argument; None is a missing (null) argument. */
  function ArgumentLocal(p: ParamDef, arg: Option<Value>, cells: seq<Value>): LocalInit
  {
    if arg.Some? && arg.value.Ref? then
      (if p.explicitByVal then NewCell(RawValue(arg.value, cells)) else Alias(arg.value.cell))
    else if arg.None? || arg.value.Skipped? then NewCell(DefaultOf(p))
    else NewCell(arg.value)
  }

  /** The three loops of SetExecutionFrame: one local per declared local variable; the passed
      arguments first, then the defaults of the parameters not passed, then Undefined. More
      arguments than parameters, or more parameters than locals, run off an array. */
  function BindLocals(params: seq<ParamDef>, args: seq<Option<Value>>, localCount: nat, cells: seq<Value>)
    : Result<seq<LocalInit>, Fault>
  {
    if |args| > |params| || |params| > localCount then Err(IndexOutOfRange)
    else Ok(InitsUpTo(params, args, cells, localCount))
  }

  /** The locals of the first n slots. */
  function InitsUpTo(params: seq<ParamDef>, args: seq<Option<Value>>, cells: seq<Value>, n: nat): (r: seq<LocalInit>)
    requires n <= |params| || |args| <= |params|
    ensures |r| == n
  {
    seq(n, i requires 0 <= i < n => InitAt(params, args, cells, i))
  }

  /** One more slot is one more local at the end. */
  lemma InitsUpToNext(params: seq<ParamDef>, args: seq<Option<Value>>, cells: seq<Value>, n: nat)
    requires n + 1 <= |params| || |args| <= |params|
    ensures InitsUpTo(params, args, cells, n + 1) == InitsUpTo(params, args, cells, n) + [InitAt(params, args, cells, n)]
  {
    assert InitsUpTo(params, args, cells, n + 1)[..n] == InitsUpTo(params, args, cells, n);
  }

  /** The local of slot i, as BindLocals defines it. */
  function InitAt(params: seq<ParamDef>, args: seq<Option<Value>>, cells: seq<Value>, i: nat): LocalInit
    requires i < |args| ==> i < |params|
  {
    if i < |args| then ArgumentLocal(params[i], args[i], cells)
    else if i < |params| then NewCell(DefaultOf(params[i]))
    else NewCell(Undefined)
  }

  /** The binding rules, for every slot of a successful binding. */
  lemma BindingRules(params: seq<ParamDef>, args: seq<Option<Value>>, localCount: nat, cells: seq<Value>)
    ensures var r := BindLocals(params, args, localCount, cells);
      (r.Ok? <==> |args| <= |params| <= localCount)
      && (r.Ok? ==> (|r.value| == localCount
        && (forall i :: 0 <= i < |args| && args[i].Some? && args[i].value.Ref? ==>
              r.value[i] == (if params[i].explicitByVal then NewCell(RawValue(args[i].value, cells))
                             else Alias(args[i].value.cell)))
        && (forall i :: 0 <= i < |args| && (args[i].None? || args[i].value.Skipped?) ==>
              r.value[i] == NewCell(DefaultOf(params[i])))
        && (forall i :: |args| <= i < |params| ==> r.value[i] == NewCell(DefaultOf(params[i])))
        && (forall i :: |params| <= i < localCount ==> r.value[i] == NewCell(Undefined))
        && (forall i :: 0 <= i < localCount && r.value[i].Alias? ==>
              i < |args| && args[i].Some? && args[i].value == Ref(r.value[i].cell) && !params[i].explicitByVal)))
  {
  }

  /** Taking cells for the locals in order: an alias is the shared cell, a new variable is
      appended to the heap. */
  function Allocate(inits: seq<LocalInit>, cells: seq<Value>): (r: (seq<nat>, seq<Value>))
    ensures |r.0| == |inits| && |cells| <= |r.1|
    decreases |inits|
  {
    if |inits| == 0 then ([], cells)
    else
      var (locals, heap) := Allocate(inits[..|inits| - 1], cells);
      match inits[|inits| - 1]
      case Alias(c) => (locals + [c], heap)
      case NewCell(v) => (locals + [|heap|], heap + [v])
  }

  /** Allocation keeps the existing cells, gives a shared local its cell, and gives each new
      variable its own cell above the old heap holding its first value. */
  lemma {:induction false} AllocateRules(inits: seq<LocalInit>, cells: seq<Value>)
    ensures var (locals, heap) := Allocate(inits, cells);
      heap[..|cells|] == cells
      && (forall i :: 0 <= i < |inits| && inits[i].Alias? ==> locals[i] == inits[i].cell)
      && (forall i :: 0 <= i < |inits| && inits[i].NewCell? ==>
            |cells| <= locals[i] < |heap| && heap[locals[i]] == inits[i].value)
      && (forall i, j :: 0 <= i < j < |inits| && inits[i].NewCell? && inits[j].NewCell? ==> locals[i] < locals[j])
    decreases |inits|
  {
    if |inits| > 0 {
      var init := inits[..|inits| - 1];
      AllocateRules(init, cells);
      var (ls, hs) := Allocate(init, cells);
      var (locals, heap) := Allocate(inits, cells);
      assert locals[..|init|] == ls;
      assert heap[..|hs|] == hs;
      forall i | 0 <= i < |init| && inits[i].NewCell?
        ensures |cells| <= locals[i] < |heap| && heap[locals[i]] == inits[i].value
      {
        assert init[i] == inits[i];
        assert locals[i] == ls[i];
      }
    }
  }

  /** Shared and new cells together: a by-reference argument variable is the very cell of the
      local, so a write to the local is a write to the caller's variable; a by-value or plain
      argument is copied into a new cell the caller cannot see. */
  lemma BoundLocals(params: seq<ParamDef>, args: seq<Option<Value>>, localCount: nat, cells: seq<Value>)
    requires BindLocals(params, args, localCount, cells).Ok?
    ensures var (locals, heap) := Allocate(BindLocals(params, args, localCount, cells).value, cells);
      |locals| == localCount && heap[..|cells|] == cells
      && (forall i :: 0 <= i < |args| && args[i].Some? && args[i].value.Ref? && !params[i].explicitByVal ==>
            locals[i] == args[i].value.cell)
      && (forall i :: 0 <= i < |args| && args[i].Some? && args[i].value.Ref? && params[i].explicitByVal ==>
            |cells| <= locals[i] < |heap| && heap[locals[i]] == RawValue(args[i].value, cells))
      && (forall i :: |args| <= i < |params| ==> |cells| <= locals[i] < |heap| && heap[locals[i]] == DefaultOf(params[i]))
      && (forall i :: |params| <= i < localCount ==> |cells| <= locals[i] < |heap| && heap[locals[i]] == Undefined)
  {
    var inits := BindLocals(params, args, localCount, cells).value;
    BindingRules(params, args, localCount, cells);
    AllocateRules(inits, cells);
    var (locals, heap) := Allocate(inits, cells);
    forall i | 0 <= i < |args| && args[i].Some? && args[i].value.Ref? && !params[i].explicitByVal
      ensures locals[i] == args[i].value.cell
    {
      assert inits[i] == Alias(args[i].value.cell);
    }
    forall i | 0 <= i < |args| && args[i].Some? && args[i].value.Ref? && params[i].explicitByVal
      ensures |cells| <= locals[i] < |heap| && heap[locals[i]] == RawValue(args[i].value, cells)
    {
      assert inits[i] == NewCell(RawValue(args[i].value, cells));
    }
    forall i | |args| <= i < |params|
      ensures |cells| <= locals[i] < |heap| && heap[locals[i]] == DefaultOf(params[i])
    {
      assert inits[i] == NewCell(DefaultOf(params[i]));
    }
    forall i | |params| <= i < localCount
      ensures |cells| <= locals[i] < |heap| && heap[locals[i]] == Undefined
    {
      assert inits[i] == NewCell(Undefined);
    }
  }
}

/**
 * StackTraceCollectionContext: the call-stack frames of an exception as
 * a read-only, indexed collection of stack-trace items.
 */
module StackTrace {
  import opened Wrappers
  import opened Builtins

  /** What the machine reports of one execution frame (ExecutionFrameInfo). */
  datatype FrameInfo = FrameInfo(source: Text, methodName: Text, lineNumber: int)

  /** One item of the collection (StackTraceItemContext). */
  datatype StackTraceItem = StackTraceItem(moduleName: Text, methodName: Text, lineNumber: int)

  datatype IndexError =
    | IndexOutOfRange    // "the index value is out of range"
    | Overflow           // OverflowException of the (int) cast of the index

  function ItemOf(f: FrameInfo): StackTraceItem
  {
    StackTraceItem(f.source, f.methodName, f.lineNumber)
  }

  datatype StackTraceCollection = StackTraceCollection(frames: seq<StackTraceItem>)
  {
    /** Count: the number of frames. */
    function Count(): (n: nat)
      ensures n == |frames|
    {
      |frames|
    }

    /** The collection always answers to an index. */
    predicate IsIndexed()
      ensures IsIndexed()
    {
      true
    }

    /** GetIndexedValue: the index number is cast to `int`, which overflows outside the 32-bit
        range; the frame at a position inside the collection, an error anywhere else. */
    function GetIndexedValue(idx: int): (r: Result<StackTraceItem, IndexError>)
      ensures r.Ok? <==> InInt32(idx) && 0 <= idx < Count()
      ensures r.Ok? ==> r.value == frames[idx]
      ensures r.Err? ==> (r.error == Overflow <==> !InInt32(idx))
    {
      if !InInt32(idx) then Err(Overflow)
      else if idx < 0 || idx >= Count() then Err(IndexOutOfRange) else Ok(frames[idx])
    }

    /** The enumerator: the frames in order. */
    function Enumerate(): (items: seq<StackTraceItem>)
      ensures |items| == Count()
      ensures forall i :: 0 <= i < |items| && InInt32(i) ==> GetIndexedValue(i) == Ok(items[i])
    {
      frames
    }
  }

  /** The constructor: one item per frame, in order, carrying the frame's source, method name and line. */
  function FromFrames(infos: seq<FrameInfo>): (c: StackTraceCollection)
    ensures c.Count() == |infos|
    ensures forall i :: 0 <= i < |infos| ==>
      c.frames[i].moduleName == infos[i].source
      && c.frames[i].methodName == infos[i].methodName
      && c.frames[i].lineNumber == infos[i].lineNumber
  {
    StackTraceCollection(seq(|infos|, (i: int) requires 0 <= i < |infos| => ItemOf(infos[i])))
  }

  /** Index i of the collection built from the frames is the item of frame i; every other index is refused. */
  lemma IndexedFrameIsFrame(infos: seq<FrameInfo>, idx: int)
    ensures var r := FromFrames(infos).GetIndexedValue(idx);
      (0 <= idx < |infos| && InInt32(idx) ==> r == Ok(ItemOf(infos[idx])))
      && (InInt32(idx) && (idx < 0 || idx >= |infos|) ==> r == Err(IndexOutOfRange))
      && (!InInt32(idx) ==> r == Err(Overflow))
  {
  }
}

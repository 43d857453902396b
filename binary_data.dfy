/**
 * The Base64, split and concatenate functions of the global context
 * (OneScript.StandardLibrary/Binary/GlobalBinaryData.cs). A script value
 * that may be Undefined where the source checks for null is an `Option`.
 */
module BinaryData {
  import opened Wrappers
  import opened Builtins
  import opened Bytes

  const Int32MaxValue: int := 0x7FFF_FFFF

  /** The bytes of all buffers, one after another. */
  function Flatten(chunks: seq<seq<Byte>>): seq<Byte>
  {
    if |chunks| == 0 then [] else Flatten(chunks[..|chunks| - 1]) + chunks[|chunks| - 1]
  }

  lemma FlattenSnoc(chunks: seq<seq<Byte>>, c: seq<Byte>)
    ensures Flatten(chunks + [c]) == Flatten(chunks) + c
  {
    assert (chunks + [c])[..|chunks|] == chunks;
  }

  // ---------------------------------------------------------------- Base64 wrappers

  /**
   * GetBinaryDataFromBase64String: the library decoder `decode` (None for a
   * FormatException) with the failure turned into empty data.
   */
  function GetBinaryDataFromBase64String(decode: Text -> Option<seq<Byte>>, str: Text): (r: seq<Byte>)
    ensures decode(str).None? ==> r == []
    ensures decode(str).Some? ==> r == decode(str).value
  {
    match decode(str)
    case Some(bytes) => bytes
    case None => []
  }

  /**
   * GetBinaryDataFromBase64BinaryData: strict UTF-8 decoding of the bytes,
   * then Base64 decoding; a failure of either gives empty data.
   */
  function GetBinaryDataFromBase64BinaryData(
    utf8: seq<Byte> -> Option<Text>, decode: Text -> Option<seq<Byte>>, data: Option<seq<Byte>>): (r: Result<seq<Byte>, BinaryError>)
    ensures data.None? <==> r == Err(InvalidArgumentType)
    ensures data.Some? && utf8(data.value).None? ==> r == Ok([])
    ensures data.Some? && utf8(data.value).Some? ==> r == Ok(GetBinaryDataFromBase64String(decode, utf8(data.value).value))
  {
    if data.None? then Err(InvalidArgumentType)
    else match utf8(data.value)
      case None => Ok([])
      case Some(str) => Ok(GetBinaryDataFromBase64String(decode, str))
  }

  // ---------------------------------------------------------------- split / concatenate

  /**
   * SplitBinaryData: rejects a null buffer and a size outside 1..Int32.MaxValue;
   * a buffer shorter than the size comes back whole; otherwise chunks of
   * exactly `size` bytes and a shorter, non-empty last one, which together
   * make up the buffer.
   */
  method SplitBinaryData(data: Option<seq<Byte>>, size: int) returns (r: Result<seq<seq<Byte>>, BinaryError>)
    ensures data.None? <==> r == Err(InvalidArgumentType)
    ensures data.Some? && (size <= 0 || size > Int32MaxValue) ==> r == Err(InvalidArgumentValue(2))
    ensures data.Some? && 0 < size <= Int32MaxValue ==> r.Ok? && Flatten(r.value) == data.value
    ensures data.Some? && 0 < size <= Int32MaxValue && |data.value| < size ==> r == Ok([data.value])
    ensures data.Some? && 0 < size <= Int32MaxValue && |data.value| >= size ==>
      r.Ok? && (forall k :: 0 <= k < |r.value| ==> 0 < |r.value[k]| <= size) &&
      (forall k :: 0 <= k < |r.value| - 1 ==> |r.value[k]| == size)
  {
    if data.None? {
      return Err(InvalidArgumentType);
    }
    if size <= 0 || size > Int32MaxValue {
      return Err(InvalidArgumentValue(2));
    }
    var bytes := data.value;
    var dataSize := |bytes|;
    if dataSize < size {
      assert [] + [bytes] == [bytes];
      return Ok([bytes]);
    }
    var chunks: seq<seq<Byte>> := [];
    var readedBytes := 0;
    while readedBytes < dataSize
      invariant 0 <= readedBytes <= dataSize
      invariant Flatten(chunks) == bytes[..readedBytes]
      invariant forall k :: 0 <= k < |chunks| ==> 0 < |chunks[k]| <= size
      invariant readedBytes < dataSize ==> forall k :: 0 <= k < |chunks| ==> |chunks[k]| == size
      invariant forall k :: 0 <= k < |chunks| - 1 ==> |chunks[k]| == size
    {
      var bytesToRead := size;
      if bytesToRead > dataSize - readedBytes {
        bytesToRead := dataSize - readedBytes;
      }
      var buffer := bytes[readedBytes..readedBytes + bytesToRead];
      FlattenSnoc(chunks, buffer);
      assert bytes[..readedBytes + bytesToRead] == bytes[..readedBytes] + buffer;
      chunks := chunks + [buffer];
      readedBytes := readedBytes + bytesToRead;
    }
    assert bytes[..dataSize] == bytes;
    return Ok(chunks);
  }

  /** An element of the script array passed to ConcatBinaryData. */
  datatype ArrayItem = BinaryItem(bytes: seq<Byte>) | OtherItem

  /** The buffers of the binary items of an array, in order. */
  function Buffers(items: seq<ArrayItem>): seq<seq<Byte>>
    requires forall i :: 0 <= i < |items| ==> items[i].BinaryItem?
  {
    seq(|items|, (k: int) requires 0 <= k < |items| => items[k].bytes)
  }

  /**
   * ConcatBinaryData: the buffers of all elements in array order; a null
   * array is refused, and the first element that is not binary data fails its cast.
   */
  method ConcatBinaryData(arr: Option<seq<ArrayItem>>) returns (r: Result<seq<Byte>, BinaryError>)
    ensures arr.None? <==> r == Err(InvalidArgumentType)
    ensures arr.Some? && (exists i :: 0 <= i < |arr.value| && arr.value[i].OtherItem?) ==> r == Err(InvalidCast)
    ensures arr.Some? && (forall i :: 0 <= i < |arr.value| ==> arr.value[i].BinaryItem?) ==>
      r == Ok(Flatten(Buffers(arr.value)))
  {
    if arr.None? {
      return Err(InvalidArgumentType);
    }
    var items := arr.value;
    var stream: seq<Byte> := [];
    for i := 0 to |items|
      invariant forall j :: 0 <= j < i ==> items[j].BinaryItem?
      invariant stream == Flatten(Buffers(items[..i]))
    {
      if items[i].OtherItem? {
        return Err(InvalidCast);
      }
      BuffersSnoc(items, i);
      FlattenSnoc(Buffers(items[..i]), items[i].bytes);
      stream := stream + items[i].bytes;
    }
    assert items[..|items|] == items;
    return Ok(stream);
  }

  lemma BuffersSnoc(items: seq<ArrayItem>, i: nat)
    requires i < |items| && forall j :: 0 <= j <= i ==> items[j].BinaryItem?
    ensures Buffers(items[..i + 1]) == Buffers(items[..i]) + [items[i].bytes]
  {
    assert forall k :: 0 <= k < i ==> Buffers(items[..i + 1])[k] == Buffers(items[..i])[k];
  }
}

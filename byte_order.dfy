/** Byte-order-mark detection of GetStringFromBinaryData (section 3.10 of the Unicode Standard). */
module ByteOrder {
  import opened Bytes

  datatype TextEncoding = Utf8 | Utf16LE | Utf16BE | Utf32LE | Utf32BE | GivenEncoding

  /** Which decoder runs, and on which bytes. */
  datatype Decoding = Decoding(encoding: TextEncoding, payload: seq<Byte>)

  /** The byte-order mark of each Unicode encoding scheme. */
  function Bom(e: TextEncoding): seq<Byte>
  {
    match e
    case Utf8 => [0xEF, 0xBB, 0xBF]
    case Utf16LE => [0xFF, 0xFE]
    case Utf16BE => [0xFE, 0xFF]
    case Utf32LE => [0xFF, 0xFE, 0x00, 0x00]
    case Utf32BE => [0x00, 0x00, 0xFE, 0xFF]
    case GivenEncoding => []
  }

  /**
   * GetStringFromByteBuffer: a given encoding without a preamble decodes the
   * whole buffer; otherwise a leading UTF-8, UTF-16 or UTF-32 mark picks that
   * encoding and is skipped, and a buffer with no mark is decoded with the
   * given encoding from the start.
   */
  function GetStringFromByteBuffer(buf: seq<Byte>, givenPreamble: seq<Byte>): (d: Decoding)
    ensures |d.payload| <= |buf|
    ensures givenPreamble == [] ==> d == Decoding(GivenEncoding, buf)
  {
    if givenPreamble == [] then Decoding(GivenEncoding, buf)
    else if |buf| >= 3 && buf[0] == 0xEF && buf[1] == 0xBB && buf[2] == 0xBF then Decoding(Utf8, buf[3..])
    else if |buf| >= 2 && buf[0] == 0xFF && buf[1] == 0xFE then
      if |buf| >= 4 && buf[2] == 0x00 && buf[3] == 0x00 then Decoding(Utf32LE, buf[4..])
      else Decoding(Utf16LE, buf[2..])
    else if |buf| >= 2 && buf[0] == 0xFE && buf[1] == 0xFF then Decoding(Utf16BE, buf[2..])
    else if |buf| >= 4 && buf[0] == 0x00 && buf[1] == 0x00 && buf[2] == 0xFE && buf[3] == 0xFF then Decoding(Utf32BE, buf[4..])
    else Decoding(GivenEncoding, buf)
  }

  /** The buffer is the detected mark followed by the bytes that are decoded. */
  lemma MarkThenPayload(buf: seq<Byte>, givenPreamble: seq<Byte>)
    ensures var d := GetStringFromByteBuffer(buf, givenPreamble);
      Bom(d.encoding) + d.payload == buf
  {
    var d := GetStringFromByteBuffer(buf, givenPreamble);
    var m := |Bom(d.encoding)|;
    assert d.payload == buf[m..];
    assert Bom(d.encoding) == buf[..m];
    assert buf[..m] + buf[m..] == buf;
  }

  /**
   * A buffer written with a mark is read back with that encoding and without
   * the mark, except UTF-16LE text that starts with U+0000, which reads as UTF-32LE.
   */
  lemma BomRoundTrip(e: TextEncoding, payload: seq<Byte>, givenPreamble: seq<Byte>)
    requires givenPreamble != [] && e != GivenEncoding
    ensures var d := GetStringFromByteBuffer(Bom(e) + payload, givenPreamble);
      (e == Utf16LE && |payload| >= 2 && payload[0] == 0 && payload[1] == 0)
        <==> d != Decoding(e, payload)
    ensures e == Utf16LE && |payload| >= 2 && payload[0] == 0 && payload[1] == 0 ==>
      GetStringFromByteBuffer(Bom(e) + payload, givenPreamble) == Decoding(Utf32LE, payload[2..])
  {
    var buf := Bom(e) + payload;
    assert buf[|Bom(e)|..] == payload;
    if e == Utf16LE && |payload| >= 2 && payload[0] == 0 && payload[1] == 0 {
      assert buf[4..] == payload[2..];
      assert |payload[2..]| < |payload|;
    }
  }

  /** A buffer is decoded whole with the given encoding exactly when no byte-order mark starts it. */
  lemma NoBomIffGivenEncoding(buf: seq<Byte>, givenPreamble: seq<Byte>)
    requires givenPreamble != []
    ensures GetStringFromByteBuffer(buf, givenPreamble) == Decoding(GivenEncoding, buf)
      <==> forall e: TextEncoding :: e != GivenEncoding ==> !(Bom(e) <= buf)
  {
    var d := GetStringFromByteBuffer(buf, givenPreamble);
    MarkThenPayload(buf, givenPreamble);
    assert Bom(d.encoding) <= buf;
  }
}

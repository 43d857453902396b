/**
 * The table-driven byte decoder of GetBinaryDataFromHexBinaryData and the
 * byte encoder GetHexBinaryDataFromBinaryData
 * (OneScript.StandardLibrary/Binary/GlobalBinaryData.cs).
 */
module HexTable {
  import opened Wrappers
  import opened Builtins
  import opened Bytes
  import opened DigitPairs
  import opened HexText

  /**
   * hexDigitsValues, entry by entry as the source writes it, sixteen codes
   * per row (note 'G' = 71 and 'g' = 103 map to 16).
   */
  const HexDigitsRows: seq<seq<int>> := [
    [-1, -1, -1, -1, -1, -1, -1, -1, -1, -1, -1, -1, -1, -1, -1, -1],
    [-1, -1, -1, -1, -1, -1, -1, -1, -1, -1, -1, -1, -1, -1, -1, -1],
    [-1, -1, -1, -1, -1, -1, -1, -1, -1, -1, -1, -1, -1, -1, -1, -1],
    [0, 1, 2, 3, 4, 5, 6, 7, 8, 9, -1, -1, -1, -1, -1, -1],
    [-1, 10, 11, 12, 13, 14, 15, 16, -1, -1, -1, -1, -1, -1, -1, -1],
    [-1, -1, -1, -1, -1, -1, -1, -1, -1, -1, -1, -1, -1, -1, -1, -1],
    [-1, 10, 11, 12, 13, 14, 15, 16, -1, -1, -1, -1, -1, -1, -1, -1],
    [-1, -1, -1, -1, -1, -1, -1, -1, -1, -1, -1, -1, -1, -1, -1, -1],
    [-1, -1, -1, -1, -1, -1, -1, -1, -1, -1, -1, -1, -1, -1, -1, -1],
    [-1, -1, -1, -1, -1, -1, -1, -1, -1, -1, -1, -1, -1, -1, -1, -1],
    [-1, -1, -1, -1, -1, -1, -1, -1, -1, -1, -1, -1, -1, -1, -1, -1],
    [-1, -1, -1, -1, -1, -1, -1, -1, -1, -1, -1, -1, -1, -1, -1, -1],
    [-1, -1, -1, -1, -1, -1, -1, -1, -1, -1, -1, -1, -1, -1, -1, -1],
    [-1, -1, -1, -1, -1, -1, -1, -1, -1, -1, -1, -1, -1, -1, -1, -1],
    [-1, -1, -1, -1, -1, -1, -1, -1, -1, -1, -1, -1, -1, -1, -1, -1],
    [-1, -1, -1, -1, -1, -1, -1, -1, -1, -1, -1, -1, -1, -1, -1, -1]
  ]

  function HexDigitsValues(): (t: seq<int>)
    ensures |t| == 0x100
  {
    seq(0x100, (i: int) requires 0 <= i < 0x100 => HexDigitsRows[i / 16][i % 16])
  }

  /** A 256-entry digit table whose entries are -1 (skip) or a digit value up to 16. */
  predicate IsDigitTable(t: seq<int>)
  {
    |t| == 0x100 && forall i :: 0 <= i < 0x100 ==> -1 <= t[i] <= 16
  }

  /** What the table says of each byte: 0-9 for '0'-'9', 10-16 for 'A'-'G' and 'a'-'g', else -1. */
  /** CharCodeToHex: the table entry of a byte. */
  function CharCodeToHex(code: Byte): int
  {
    HexDigitsValues()[code]
  }

  lemma HexTableDescription(c: Byte)
    ensures |HexDigitsValues()| == 0x100
    ensures CharCodeToHex(c) == if 48 <= c <= 57 then c as int - 48
                                  else if 65 <= c <= 71 then c as int - 55
                                  else if 97 <= c <= 103 then c as int - 87
                                  else -1
  {
    assert CharCodeToHex(c) == HexDigitsRows[c / 16][c % 16];
  }

  lemma HexTableIsDigitTable()
    ensures IsDigitTable(HexDigitsValues())
  {
    forall i | 0 <= i < 0x100 ensures -1 <= HexDigitsValues()[i] <= 16 {
      HexTableDescription(i as Byte);
    }
  }

  /** The digit values of the bytes a table accepts (entries >= 0), in input order. */
  function AcceptedDigits(t: seq<int>, hex: seq<Byte>): (d: seq<int>)
    requires IsDigitTable(t)
    ensures |d| <= |hex|
  {
    if hex == [] then []
    else
      var c := hex[|hex| - 1];
      AcceptedDigits(t, hex[..|hex| - 1]) + (if t[c] >= 0 then [t[c]] else [])
  }

  lemma {:induction false} AcceptedDigitsAppend(t: seq<int>, a: seq<Byte>, b: seq<Byte>)
    requires IsDigitTable(t)
    ensures AcceptedDigits(t, a + b) == AcceptedDigits(t, a) + AcceptedDigits(t, b)
  {
    if b != [] {
      assert (a + b)[..|a + b| - 1] == a + b[..|b| - 1];
      AcceptedDigitsAppend(t, a, b[..|b| - 1]);
    } else {
      assert a + b == a;
    }
  }

  lemma AcceptedDigitsSingle(t: seq<int>, c: Byte)
    requires IsDigitTable(t)
    ensures AcceptedDigits(t, [c]) == if t[c] >= 0 then [t[c]] else []
  {
    assert [c][..0] == [];
  }

  lemma AcceptedDigitsSnoc(t: seq<int>, hex: seq<Byte>, i: nat)
    requires IsDigitTable(t) && i < |hex|
    ensures t[hex[i]] < 0 ==> AcceptedDigits(t, hex[..i + 1]) == AcceptedDigits(t, hex[..i])
    ensures t[hex[i]] >= 0 ==> AcceptedDigits(t, hex[..i + 1]) == AcceptedDigits(t, hex[..i]) + [t[hex[i]]]
  {
    assert hex[..i + 1][..i] == hex[..i];
    assert AcceptedDigits(t, hex[..i]) + [] == AcceptedDigits(t, hex[..i]);
  }


  /**
   * HexArrayToByteArray over a given digit table: bytes the table rejects
   * are skipped, accepted digits are paired first-high with the `(byte)`
   * truncation, and a trailing unpaired digit is dropped.
   */
  method HexArrayToByteArrayWith(t: seq<int>, hex: seq<Byte>) returns (r: seq<Byte>)
    requires IsDigitTable(t)
    ensures r == PairDigits(AcceptedDigits(t, hex))
    ensures |r| == |AcceptedDigits(t, hex)| / 2
  {
    var bytes := new Byte[|hex| / 2];
    var pos := 0;
    var hexDig2 := -1;
    ghost var d: seq<int> := [];
    for i := 0 to |hex|
      invariant d == AcceptedDigits(t, hex[..i]) && |d| <= i
      invariant -1 <= hexDig2 <= 16
      invariant hexDig2 < 0 ==> |d| == 2 * pos
      invariant hexDig2 >= 0 ==> |d| == 2 * pos + 1 && d[|d| - 1] == hexDig2
      invariant bytes[..pos] == PairDigits(d)
    {
      AcceptedDigitsSnoc(t, hex, i);
      var hexDig1 := t[hex[i]];
      if hexDig1 < 0 {
        continue;
      }
      if hexDig2 < 0 {
        PairDigitsExtendOdd(d, hexDig1, pos);
        d := d + [hexDig1];
        hexDig2 := hexDig1;
        continue;
      }
      PairDigitsExtendEven(d, hexDig1, pos);
      ghost var done := bytes[..pos];
      bytes[pos] := PairByte(hexDig2, hexDig1);
      assert bytes[..pos + 1] == done + [bytes[pos]];
      d := d + [hexDig1];
      pos := pos + 1;
      hexDig2 := -1;
    }
    assert hex[..|hex|] == hex;
    r := bytes[..pos];
  }

  /** HexArrayToByteArray, with the table of the source. */
  method HexArrayToByteArray(hex: seq<Byte>) returns (r: seq<Byte>)
    ensures IsDigitTable(HexDigitsValues())
    ensures r == PairDigits(AcceptedDigits(HexDigitsValues(), hex))
  {
    HexTableIsDigitTable();
    r := HexArrayToByteArrayWith(HexDigitsValues(), hex);
  }

  /** The ASCII (and UTF-8) bytes of a text of code units below 128. */
  function AsciiBytes(t: Text): (b: seq<Byte>)
    requires forall i :: 0 <= i < |t| ==> t[i] < 0x80
    ensures |b| == |t|
    ensures forall i :: 0 <= i < |t| ==> b[i] as int == t[i] as int
  {
    if t == [] then [] else [t[0] as int as Byte] + AsciiBytes(t[1..])
  }

  /** GetHexBinaryDataFromBinaryData: the hex text of the data as UTF-8 bytes. */
  function GetHexBinaryDataFromBinaryData(data: seq<Byte>): (r: seq<Byte>)
    ensures |r| == 2 * |data|
  {
    AsciiBytes(HexEncode(data))
  }

  /** On the bytes of upper-case hex text the source table yields exactly the hex values. */
  lemma {:induction false} AcceptedDigitsOfUpperHex(s: Text)
    requires IsUpperHexText(s)
    ensures IsDigitTable(HexDigitsValues())
    ensures AcceptedDigits(HexDigitsValues(), AsciiBytes(s)) == HexValues(s)
  {
    HexTableIsDigitTable();
    if |s| > 0 {
      var t := HexDigitsValues();
      var b := AsciiBytes(s);
      var rest := AsciiBytes(s[1..]);
      assert b == [b[0]] + rest;
      AcceptedDigitsCons(t, b[0], rest);
      AcceptedDigitsOfUpperHex(s[1..]);
      HexTableDescription(b[0]);
      assert t[b[0]] == HexValue(s[0]) as int;
      assert HexValues(s) == [HexValue(s[0]) as int] + HexValues(s[1..]);
    }
  }

  lemma AcceptedDigitsCons(t: seq<int>, c: Byte, rest: seq<Byte>)
    requires IsDigitTable(t)
    ensures AcceptedDigits(t, [c] + rest) == (if t[c] >= 0 then [t[c]] else []) + AcceptedDigits(t, rest)
  {
    AcceptedDigitsAppend(t, [c], rest);
    AcceptedDigitsSingle(t, c);
  }

  /** Decoding the hex bytes of b with the source table gives back b. */
  lemma HexBinaryRoundTrip(b: seq<Byte>)
    ensures IsDigitTable(HexDigitsValues())
    ensures PairDigits(AcceptedDigits(HexDigitsValues(), GetHexBinaryDataFromBinaryData(b))) == b
  {
    HexTableIsDigitTable();
    AcceptedDigitsOfUpperHex(HexEncode(b));
    HexTextRoundTrip(b);
  }

  /** GetBinaryDataFromHexBinaryData with its null check, decoding with the source table. */
  method GetBinaryDataFromHexBinaryData(data: Option<seq<Byte>>) returns (r: Result<seq<Byte>, BinaryError>)
    ensures IsDigitTable(HexDigitsValues())
    ensures data.None? <==> r == Err(InvalidArgumentType)
    ensures data.Some? ==> r == Ok(PairDigits(AcceptedDigits(HexDigitsValues(), data.value)))
  {
    HexTableIsDigitTable();
    if data.None? {
      return Err(InvalidArgumentType);
    }
    var bytes := HexArrayToByteArray(data.value);
    return Ok(bytes);
  }

  /** The two hex decoders disagree on "GG": the byte decoder yields one byte 0x10, the text decoder none. */
  lemma HexTableAcceptsG()
    ensures IsDigitTable(HexDigitsValues())
    ensures AcceptedDigits(HexDigitsValues(), [71, 71]) == [16, 16]
    ensures PairDigits(AcceptedDigits(HexDigitsValues(), [71, 71])) == [16]
    ensures HexOnly([71, 71]) == []
  {
    HexTableIsDigitTable();
    HexTableDescription(71);
    var g: seq<Byte> := [71, 71];
    assert g[..1] == [71] && g[..1][..0] == [];
    assert AcceptedDigits(HexDigitsValues(), g[..1]) == [16];
  }

  /** The table as evidently intended: hexDigitsValues without the entries for 'G' and 'g'. */
  const CorrectedHexDigitsValues: seq<int> :=
    HexDigitsValues()[..71] + [-1] + HexDigitsValues()[72..103] + [-1] + HexDigitsValues()[104..]

  /** The corrected table accepts exactly the hex digits, with their values. */
  lemma CorrectedTableIsHex()
    ensures IsDigitTable(CorrectedHexDigitsValues)
    ensures forall c: Byte :: CorrectedHexDigitsValues[c] >= 0 <==> IsHexDigit(c as int as Char16)
    ensures forall c: Byte :: CorrectedHexDigitsValues[c] >= 0 ==> CorrectedHexDigitsValues[c] == HexValue(c as int as Char16)
  {
    forall c: Byte
      ensures -1 <= CorrectedHexDigitsValues[c] <= 16
      ensures CorrectedHexDigitsValues[c] >= 0 <==> IsHexDigit(c as int as Char16)
      ensures CorrectedHexDigitsValues[c] >= 0 ==> CorrectedHexDigitsValues[c] == HexValue(c as int as Char16)
    {
      HexTableDescription(c);
      assert c != 71 && c != 103 ==> CorrectedHexDigitsValues[c] == HexDigitsValues()[c];
    }
    forall i | 0 <= i < 0x100 ensures -1 <= CorrectedHexDigitsValues[i] <= 16 {
      assert -1 <= CorrectedHexDigitsValues[i as Byte] <= 16;
    }
  }

  /** The bytes as UTF-16 code units (Latin-1 reading of each byte). */
  function BytesAsText(b: seq<Byte>): (t: Text)
    ensures |t| == |b| && forall i :: 0 <= i < |b| ==> t[i] as int == b[i] as int
  {
    if b == [] then [] else [b[0] as int as Char16] + BytesAsText(b[1..])
  }

  /** With the corrected table the byte decoder accepts exactly the characters the text decoder keeps. */
  lemma {:induction false} CorrectedTableAgreesWithText(hex: seq<Byte>)
    ensures IsDigitTable(CorrectedHexDigitsValues)
    ensures AcceptedDigits(CorrectedHexDigitsValues, hex) == HexValues(HexOnly(BytesAsText(hex)))
  {
    CorrectedTableIsHex();
    if hex != [] {
      var init, c := hex[..|hex| - 1], hex[|hex| - 1];
      assert hex == init + [c];
      CorrectedTableAgreesWithText(init);
      assert BytesAsText(hex) == BytesAsText(init) + BytesAsText([c]) by {
        BytesAsTextAppend(init, [c]);
      }
      HexOnlyAppend(BytesAsText(init), BytesAsText([c]));
      HexValuesAppend(HexOnly(BytesAsText(init)), HexOnly(BytesAsText([c])));
      assert BytesAsText([c])[1..] == [];
    }
  }

  lemma {:induction false} BytesAsTextAppend(a: seq<Byte>, b: seq<Byte>)
    ensures BytesAsText(a + b) == BytesAsText(a) + BytesAsText(b)
  {
    if a != [] {
      assert (a + b)[1..] == a[1..] + b;
      BytesAsTextAppend(a[1..], b);
    } else {
      assert a + b == b;
    }
  }

  lemma HexValuesAppend(a: Text, b: Text)
    requires forall i :: 0 <= i < |a| ==> IsHexDigit(a[i])
    requires forall i :: 0 <= i < |b| ==> IsHexDigit(b[i])
    ensures HexValues(a + b) == HexValues(a) + HexValues(b)
  {
  }

  /** GetBinaryDataFromHexBinaryData with the corrected table. */
  method GetBinaryDataFromHexBinaryDataCorrected(data: Option<seq<Byte>>) returns (r: Result<seq<Byte>, BinaryError>)
    ensures data.None? <==> r == Err(InvalidArgumentType)
    ensures data.Some? ==> r == Ok(PairDigits(HexValues(HexOnly(BytesAsText(data.value)))))
  {
    if data.None? {
      return Err(InvalidArgumentType);
    }
    CorrectedTableAgreesWithText(data.value);
    var bytes := HexArrayToByteArrayWith(CorrectedHexDigitsValues, data.value);
    return Ok(bytes);
  }
}

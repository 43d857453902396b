/**
 * Base16 text (section 8 of RFC 4648) as GetBinaryDataFromHexString and
 * GetHexStringFromBinaryData of the global context
 * (OneScript.StandardLibrary/Binary/GlobalBinaryData.cs) read and write it.
 */
module HexText {
  import opened Wrappers
  import opened Builtins
  import opened Bytes
  import opened DigitPairs

  /** A character the pattern [0-9A-Fa-f] matches. */
  predicate IsHexDigit(c: Char16)
  {
    (48 <= c <= 57) || (65 <= c <= 70) || (97 <= c <= 102)
  }

  function HexValue(c: Char16): (v: nat)
    requires IsHexDigit(c)
    ensures v < 16
  {
    if c <= 57 then (c - 48) as nat else if c <= 70 then (c - 55) as nat else (c - 87) as nat
  }

  /** The text with every character that is not a hex digit removed (the regular-expression replace). */
  function HexOnly(t: Text): (r: Text)
    ensures forall i :: 0 <= i < |r| ==> IsHexDigit(r[i])
  {
    if t == [] then []
    else (if IsHexDigit(t[0]) then [t[0]] else []) + HexOnly(t[1..])
  }

  lemma {:induction false} HexOnlyAppend(a: Text, b: Text)
    ensures HexOnly(a + b) == HexOnly(a) + HexOnly(b)
  {
    if a != [] {
      assert (a + b)[1..] == a[1..] + b;
      HexOnlyAppend(a[1..], b);
    } else {
      assert a + b == b;
    }
  }

  /** The value of every digit of an all-hex text. */
  function HexValues(t: Text): (d: seq<int>)
    requires forall i :: 0 <= i < |t| ==> IsHexDigit(t[i])
    ensures |d| == |t|
    ensures forall i :: 0 <= i < |t| ==> d[i] == HexValue(t[i])
  {
    if t == [] then [] else [HexValue(t[0]) as int] + HexValues(t[1..])
  }

  /**
   * HexStringToByteArray: drops every non-hex character, refuses an odd
   * number of remaining digits, and turns each digit pair into one byte.
   */
  method HexStringToByteArray(hex: Text) returns (r: Result<seq<Byte>, BinaryError>)
    ensures r.Err? <==> |HexOnly(hex)| % 2 == 1
    ensures r.Err? ==> r.error == FormatError
    ensures r.Ok? ==> r.value == PairDigits(HexValues(HexOnly(hex)))
  {
    var newHex := HexOnly(hex);
    var numberChars := |newHex|;
    if numberChars % 2 == 1 {
      return Err(FormatError);
    }
    ghost var digits := HexValues(newHex);
    var half := numberChars / 2;
    assert numberChars == 2 * half;
    var bytes := new Byte[half];
    var i, pos := 0, 0;
    while i < numberChars
      invariant 0 <= pos <= half && i == 2 * pos
      invariant bytes[..pos] == PairDigits(digits[..i])
    {
      PairDigitsSnocPair(digits, pos);
      ghost var done := bytes[..pos];
      bytes[pos] := PairByte(HexValue(newHex[i]), HexValue(newHex[i + 1]));
      assert bytes[..pos + 1] == done + [bytes[pos]];
      i, pos := i + 2, pos + 1;
    }
    assert digits[..numberChars] == digits;
    assert bytes[..] == bytes[..pos];
    return Ok(bytes[..]);
  }

  /** A text of the digits GetHexStringFromBinaryData writes: 0-9 and A-F. */
  predicate IsUpperHexText(s: Text)
  {
    forall i :: 0 <= i < |s| ==> (48 <= s[i] <= 57) || (65 <= s[i] <= 70)
  }

  /** An upper-case hex digit for a value below 16. */
  function UpperHexDigit(v: int): (c: Char16)
    requires 0 <= v < 16
    ensures IsUpperHexText([c]) && IsHexDigit(c) && HexValue(c) == v
  {
    if v < 10 then (48 + v) as Char16 else (55 + v) as Char16
  }

  /** GetHexStringFromBinaryData: two upper-case hex digits per byte, no separators. */
  function HexEncode(b: seq<Byte>): (r: Text)
    ensures |r| == 2 * |b|
    ensures IsUpperHexText(r)
    ensures forall i :: 0 <= i < |r| ==> IsHexDigit(r[i])
  {
    if b == [] then [] else [UpperHexDigit(b[0] as int / 16), UpperHexDigit(b[0] as int % 16)] + HexEncode(b[1..])
  }

  /** GetHexStringFromBinaryData with its null check. */
  function GetHexStringFromBinaryData(data: Option<seq<Byte>>): (r: Result<Text, BinaryError>)
    ensures data.None? <==> r == Err(InvalidArgumentType)
    ensures data.Some? ==> r.Ok? && |r.value| == 2 * |data.value|
  {
    if data.None? then Err(InvalidArgumentType) else Ok(HexEncode(data.value))
  }

  /** The hex text of b passes the hex filter untouched. */
  lemma {:induction false} HexOnlyOfHexEncode(b: seq<Byte>)
    ensures HexOnly(HexEncode(b)) == HexEncode(b)
  {
    if b != [] {
      var head := [UpperHexDigit(b[0] as int / 16), UpperHexDigit(b[0] as int % 16)];
      assert HexEncode(b) == head + HexEncode(b[1..]);
      HexOnlyOfHexEncode(b[1..]);
      HexOnlyAppend(head, HexEncode(b[1..]));
      assert HexOnly(head) == head by {
        assert head[1..][1..] == [];
      }
    }
  }

  /** Decoding the hex text of b gives back b. */
  lemma {:induction false} HexTextRoundTrip(b: seq<Byte>)
    ensures HexOnly(HexEncode(b)) == HexEncode(b)
    ensures PairDigits(HexValues(HexEncode(b))) == b
  {
    HexOnlyOfHexEncode(b);
    if b != [] {
      HexTextRoundTrip(b[1..]);
      var d := HexValues(HexEncode(b));
      assert HexEncode(b)[2..] == HexEncode(b[1..]);
      assert d[2..] == HexValues(HexEncode(b[1..]));
      assert d[0] == b[0] as int / 16 && d[1] == b[0] as int % 16;
      ByteDigits(b[0]);
      assert PairDigits(d) == [b[0]] + PairDigits(d[2..]);
    }
  }
}

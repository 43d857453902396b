/** Hex digit values paired into bytes, the first digit of each pair high. */
module DigitPairs {
  import opened Bytes

  function PairByte(hi: int, lo: int): Byte
  {
    ((hi * 16 + lo) % 0x100) as Byte
  }

  /** Consecutive digit pairs as bytes, the first digit of a pair high; a trailing digit is dropped. */
  function PairDigits(d: seq<int>): (r: seq<Byte>)
    ensures |r| == |d| / 2
  {
    if |d| < 2 then [] else [PairByte(d[0], d[1])] + PairDigits(d[2..])
  }

  lemma {:induction false} PairDigitsAt(d: seq<int>, k: nat)
    requires k < |d| / 2
    ensures PairDigits(d)[k] == PairByte(d[2 * k], d[2 * k + 1])
  {
    if k > 0 {
      PairDigitsAt(d[2..], k - 1);
    }
  }

  /** A digit after an even number of digits adds no byte yet. */
  lemma {:induction false} PairDigitsExtendOdd(d: seq<int>, x: int, pairs: nat)
    requires |d| == 2 * pairs
    ensures PairDigits(d + [x]) == PairDigits(d)
  {
    if pairs > 0 {
      assert (d + [x])[2..] == d[2..] + [x];
      PairDigitsExtendOdd(d[2..], x, pairs - 1);
    }
  }

  /** A digit after an odd number of digits completes the byte of the last digit and this one. */
  lemma {:induction false} PairDigitsExtendEven(d: seq<int>, x: int, pairs: nat)
    requires |d| == 2 * pairs + 1
    ensures PairDigits(d + [x]) == PairDigits(d) + [PairByte(d[|d| - 1], x)]
  {
    if pairs > 0 {
      var rest := d[2..];
      assert (d + [x])[2..] == rest + [x];
      assert rest[|rest| - 1] == d[|d| - 1];
      PairDigitsExtendEven(rest, x, pairs - 1);
      assert PairDigits(d + [x]) == [PairByte(d[0], d[1])] + PairDigits(rest + [x]);
    } else {
      assert (d + [x])[2..] == [];
    }
  }

  /** The prefix of 2(k+1) digits pairs into the bytes of the first 2k digits and one more. */
  lemma PairDigitsSnocPair(d: seq<int>, pairs: nat)
    requires 2 * pairs + 2 <= |d|
    ensures PairDigits(d[..2 * pairs + 2]) == PairDigits(d[..2 * pairs]) + [PairByte(d[2 * pairs], d[2 * pairs + 1])]
  {
    var i := 2 * pairs;
    assert d[..i + 1] == d[..i] + [d[i]];
    assert d[..i + 2] == d[..i + 1] + [d[i + 1]];
    PairDigitsExtendOdd(d[..i], d[i], pairs);
    PairDigitsExtendEven(d[..i + 1], d[i + 1], pairs);
  }

  lemma ByteDigits(x: Byte)
    ensures PairByte(x as int / 16, x as int % 16) == x
  {
  }
}

/**
 * The string and integer built-in functions of the stack machine
 * (ScriptEngine/Machine/MachineInstance.cs). Each built-in opcode pops its
 * arguments, converts them with AsString/AsNumber and pushes its result;
 * this module states the computation on the converted values.
 *
 * Runtime strings are .NET strings, that is sequences of UTF-16 code units,
 * so a string here is a sequence of `Char16`. Numbers are integers.
 */
module Builtins {
  import opened Wrappers

  /** A UTF-16 code unit, the element of a .NET string. */
  newtype Char16 = x: int | 0 <= x < 0x1_0000

  type Text = seq<Char16>

  const LineFeed: Char16 := 10

  /** The length a clamping `Left`/`Right` keeps: 0 for a negative request, at most |s|. */
  function KeptLength(s: Text, len: int): nat
  {
    if len < 0 then 0 else if len > |s| then |s| else len
  }

  // ---------------------------------------------------------------- Left / Right

  /** Left(s, len): the first `len` units; "" for a negative length, all of s for a long one. */
  function Left(s: Text, len: int): Text
  {
    if len > |s| then s
    else if len < 0 then []
    else s[..len]
  }

  /** Left keeps the clamped length and is a prefix. */
  lemma LeftRules(s: Text, len: int)
    ensures var r := Left(s, len); |r| == KeptLength(s, len) && r == s[..|r|]
  {
  }

  /** Right(s, len): the last `len` units; "" for a negative length, all of s for a long one. */
  function Right(s: Text, len: int): Text
  {
    if len > |s| then s
    else if len < 0 then []
    else s[|s| - len..]
  }

  /** Right keeps the clamped length and is a suffix. */
  lemma RightRules(s: Text, len: int)
    ensures var r := Right(s, len); |r| == KeptLength(s, len) && r == s[|s| - |r|..]
  {
  }

  /** Cutting s anywhere gives a Left part and a Right part that put back together make s. */
  lemma LeftRightSplit(s: Text, n: int)
    requires 0 <= n <= |s|
    ensures Left(s, n) + Right(s, |s| - n) == s
  {
    assert s[..n] + s[n..] == s;
  }

  // ---------------------------------------------------------------- 32-bit integers

  const Int32Min: int := -0x8000_0000
  const Int32Max: int := 0x7FFF_FFFF

  /** The values of a C# `int`. */
  predicate InInt32(n: int)
  {
    Int32Min <= n <= Int32Max
  }

  /** Unchecked `int` arithmetic: the exact result wrapped into the 32-bit range. */
  function Wrap32(x: int): (r: int)
    ensures InInt32(r) && (x - r) % 0x1_0000_0000 == 0
  {
    (x - Int32Min) % 0x1_0000_0000 + Int32Min
  }

  /** Wrapping changes nothing that is already in range, and a sum just past Int32Max comes out negative. */
  lemma Wrap32Rules(x: int)
    ensures InInt32(x) ==> Wrap32(x) == x
    ensures Int32Max < x <= 2 * Int32Max + 1 ==> Wrap32(x) == x - 0x1_0000_0000 < 0
  {
  }

  // ---------------------------------------------------------------- Mid

  /**
   * Mid(s, start[, count]) as MachineInstance.Mid computes it on `int`s: a
   * start below 1 counts as 1; a missing, negative or overlong count takes
   * the rest of the string; a start past the end gives "". The overlong test
   * `start + len > str.Length` is unchecked, so a sum past Int32Max wraps,
   * the count is kept, and Substring throws ArgumentOutOfRangeException:
   * None here.
   */
  function Mid(s: Text, start: int, count: Option<int>): Option<Text>
  {
    var len0 := if count.Some? then count.value else Wrap32(|s| - start + 1);
    var st := if start < 1 then 1 else start;
    var len := if Wrap32(st + len0) > |s| || len0 < 0 then Wrap32(|s| - st + 1) else len0;
    if st > |s| || len == 0 then Some([])
    else if len < 0 || st - 1 + len > |s| then None
    else Some(s[st - 1..st - 1 + len])
  }

  /** Where neither the length Mid works with (the count, or the rest of the string from the
      start) nor the start plus that length leaves the 32-bit range, Mid is the clamping
      MidClamped and never throws. */
  lemma MidInRange(s: Text, start: int, count: Option<int>)
    requires |s| < Int32Max && InInt32(start)
    requires var len0 := if count.Some? then count.value else |s| - start + 1;
      InInt32(len0) && InInt32((if start < 1 then 1 else start) + len0)
    ensures Mid(s, start, count) == Some(MidClamped(s, start, count))
  {
    var st := if start < 1 then 1 else start;
    var len0 := if count.Some? then count.value else |s| - start + 1;
    Wrap32Rules(|s| - start + 1);
    Wrap32Rules(st + len0);
    Wrap32Rules(|s| - st + 1);
  }

  /** Mid("abc", 2 - Int32Max) without a count: the rest of the string from that start is
      Int32Max long, 1 plus that wraps, and Substring throws. */
  lemma MidRestOverflowThrows()
    ensures Mid([97, 98, 99], 4 - Int32Max, None) == None
    ensures MidClamped([97, 98, 99], 4 - Int32Max, None) == [97, 98, 99]
  {
    Wrap32Rules(Int32Max);
    Wrap32Rules(1 + Int32Max);
  }

  /** Mid("abc", 2, Int32Max): the wrapped sum passes the overlong test and Substring throws. */
  lemma MidOverflowThrows()
    ensures Mid([97, 98, 99], 2, Some(Int32Max)) == None
    ensures MidClamped([97, 98, 99], 2, Some(Int32Max)) == [98, 99]
  {
    Wrap32Rules(2 + Int32Max);
  }

  /**
   * The clamping the source intends for Mid(s, start[, count]) on unbounded
   * integers: a start below 1 counts as 1; a missing, negative or overlong
   * count takes the rest of the string; a start past the end gives "".
   */
  function MidClamped(s: Text, start: int, count: Option<int>): Text
  {
    var len0 := if count.Some? then count.value else |s| - start + 1;
    var st := if start < 1 then 1 else start;
    var len := if st + len0 > |s| || len0 < 0 then |s| - st + 1 else len0;
    if st > |s| || len == 0 then [] else s[st - 1..st - 1 + len]
  }

  /** What MidClamped takes, case by case. */
  lemma MidRules(s: Text, start: int, count: Option<int>)
    ensures var r := MidClamped(s, start, count);
      |r| <= |s|
      && (start > |s| ==> r == [])
      && (start < 1 && (count.None? || count.value < 0) ==> r == s)
      && (start < 1 && count.Some? && count.value >= 0 ==> r == Left(s, count.value))
      && (1 <= start <= |s| ==> start - 1 + |r| <= |s| && r == s[start - 1..start - 1 + |r|])
      && (1 <= start <= |s| && count.None? ==> r == s[start - 1..])
      && ((1 <= start <= |s| && count.Some? && (count.value < 0 || start - 1 + count.value >= |s|))
            ==> r == s[start - 1..])
      && ((1 <= start && count.Some? && 0 <= count.value && start - 1 + count.value <= |s|)
            ==> |r| == count.value)
  {
  }

  /** Mid with a count is Left of Mid without one, for any start inside the string. */
  lemma MidIsLeftOfTail(s: Text, start: int, n: int)
    requires 1 <= start <= |s| && 0 <= n
    ensures MidClamped(s, start, Some(n)) == Left(MidClamped(s, start, None), n)
    ensures MidClamped(s, start, None) == Right(s, |s| - start + 1)
  {
  }

  // ---------------------------------------------------------------- StrPos / IndexOf

  /** n occurs in h at index i (ordinal comparison of code units). */
  predicate OccursAt(h: Text, n: Text, i: int)
  {
    0 <= i && i + |n| <= |h| && forall k :: 0 <= k < |n| ==> h[i + k] == n[k]
  }

  /** String.IndexOf(n, from) with ordinal comparison: the first occurrence at or after `from`, or -1. */
  function IndexOfFrom(h: Text, n: Text, from: nat): (r: int)
    requires from <= |h|
    decreases |h| - from
    ensures r == -1 || (from <= r && OccursAt(h, n, r))
  {
    if OccursAt(h, n, from) then from
    else if from == |h| then -1
    else IndexOfFrom(h, n, from + 1)
  }

  /** IndexOf finds the first occurrence: there is none between `from` and what it returns. */
  lemma {:induction false} IndexOfFromIsFirst(h: Text, n: Text, from: nat)
    requires from <= |h|
    decreases |h| - from
    ensures var r := IndexOfFrom(h, n, from);
      forall j :: from <= j < (if r == -1 then |h| + 1 else r) ==> !OccursAt(h, n, j)
  {
    if !OccursAt(h, n, from) && from < |h| {
      IndexOfFromIsFirst(h, n, from + 1);
    }
  }

  /** StrPos: the 1-based position of the first occurrence of the needle, 0 when there is none. */
  function StrPos(haystack: Text, needle: Text): nat
  {
    IndexOfFrom(haystack, needle, 0) + 1
  }

  /** StrPos is 0 exactly when the needle does not occur, and otherwise the first occurrence. */
  lemma StrPosRules(haystack: Text, needle: Text)
    ensures var r := StrPos(haystack, needle);
      (r == 0 <==> forall j :: !OccursAt(haystack, needle, j))
      && (r > 0 ==> OccursAt(haystack, needle, r - 1))
      && (forall j :: 0 <= j < r - 1 ==> !OccursAt(haystack, needle, j))
  {
    IndexOfFromIsFirst(haystack, needle, 0);
  }

  /** The empty needle is found at position 1. */
  lemma StrPosEmptyNeedle(h: Text)
    ensures StrPos(h, []) == 1
  {
    assert OccursAt(h, [], 0);
  }

  // ---------------------------------------------------------------- StrLineCount

  /** A stretch of s free of c adds nothing to the number of c before it. */
  lemma {:induction false} CountUnchangedAcross(s: Text, c: Char16, a: nat, b: nat)
    requires a <= b <= |s|
    requires forall j :: a <= j < b ==> s[j] != c
    ensures multiset(s[..b])[c] == multiset(s[..a])[c]
  {
    if a < b {
      CountUnchangedAcross(s, c, a, b - 1);
      assert s[..b] == s[..b - 1] + [s[b - 1]];
    }
  }

  /** A stretch where IndexOf finds no line feed adds nothing to the line feeds counted. */
  lemma NoLineFeedAcross(s: Text, from: nat, to: nat)
    requires from <= to <= |s|
    requires forall j :: from <= j < to ==> !OccursAt(s, [LineFeed], j)
    ensures multiset(s[..to])[LineFeed] == multiset(s[..from])[LineFeed]
  {
    forall j | from <= j < to ensures s[j] != LineFeed {
      assert !OccursAt(s, [LineFeed], j);
    }
    CountUnchangedAcross(s, LineFeed, from, to);
  }

  /** StrLineCount: one more than the number of line feeds. */
  method StrLineCount(s: Text) returns (lineCount: int)
    ensures lineCount == 1 + multiset(s)[LineFeed]
  {
    var pos := 0;
    lineCount := 1;
    while 0 <= pos < |s|
      invariant -1 <= pos <= |s|
      invariant pos >= 0 ==> lineCount == 1 + multiset(s[..pos])[LineFeed]
      invariant pos == -1 ==> lineCount == 1 + multiset(s)[LineFeed]
      decreases if pos < 0 then 0 else |s| + 1 - pos
    {
      var from := pos;
      IndexOfFromIsFirst(s, [LineFeed], pos);
      pos := IndexOfFrom(s, [LineFeed], pos);
      if pos >= 0 {
        NoLineFeedAcross(s, from, pos);
        assert s[pos + 0] == [LineFeed][0];
        assert s[..pos + 1] == s[..pos] + [s[pos]];
        lineCount := lineCount + 1;
        pos := pos + 1;
      } else {
        NoLineFeedAcross(s, from, |s|);
        assert s[..|s|] == s;
      }
    }
    if pos == |s| {
      assert s[..|s|] == s;
    }
  }

  // ---------------------------------------------------------------- StrEntryCount

  /**
   * The number of non-overlapping occurrences of w in s at or after index i,
   * taken greedily from the left: a match consumes |w| units, a mismatch one.
   */
  function CountFrom(s: Text, w: Text, i: nat): nat
    requires w != []
    decreases |s| - i
  {
    if i + |w| > |s| then 0
    else if OccursAt(s, w, i) then 1 + CountFrom(s, w, i + |w|)
    else CountFrom(s, w, i + 1)
  }

  /** The number of non-overlapping occurrences of w in s. */
  function NonOverlappingCount(s: Text, w: Text): nat
    requires w != []
  {
    CountFrom(s, w, 0)
  }

  /** The occurrences counted fit side by side in what is left of s. */
  lemma {:induction false} CountBound(s: Text, w: Text, i: nat)
    requires w != [] && i <= |s|
    decreases |s| - i
    ensures CountFrom(s, w, i) * |w| <= |s| - i
  {
    var c := CountFrom(s, w, i);
    if i + |w| > |s| {
      assert c == 0;
    } else if OccursAt(s, w, i) {
      var rest := CountFrom(s, w, i + |w|);
      CountBound(s, w, i + |w|);
      assert c == 1 + rest;
      assert c * |w| == |w| + rest * |w|;
    } else {
      CountBound(s, w, i + 1);
      assert c == CountFrom(s, w, i + 1);
    }
  }

  /** Counting from `from` is: nothing if IndexOf finds nothing, else one plus counting after the match. */
  lemma {:induction false} CountFromIndexOf(s: Text, w: Text, from: nat)
    requires w != [] && from <= |s|
    decreases |s| - from
    ensures var p := IndexOfFrom(s, w, from);
      CountFrom(s, w, from) == if p == -1 then 0 else 1 + CountFrom(s, w, p + |w|)
  {
    if OccursAt(s, w, from) {
    } else if from == |s| {
    } else {
      CountFromIndexOf(s, w, from + 1);
    }
  }

  /** What is still to be counted once an occurrence has been found at `pos` (nothing for -1). */
  ghost function Pending(where: Text, what: Text, pos: int): nat
    requires what != []
    requires pos == -1 || OccursAt(where, what, pos)
  {
    if pos == -1 then 0 else 1 + CountFrom(where, what, pos + |what|)
  }

  /** Finding an occurrence at `pos` accounts for one, and counting resumes after it. */
  lemma PendingStep(where: Text, what: Text, pos: int, counted: nat)
    requires what != [] && OccursAt(where, what, pos)
    requires counted + Pending(where, what, pos) == NonOverlappingCount(where, what)
    ensures pos + |what| <= |where|
    ensures pos + |what| >= |where| ==> counted + 1 == NonOverlappingCount(where, what)
    ensures pos + |what| < |where| ==>
      var next := IndexOfFrom(where, what, pos + |what|);
      (next == -1 || OccursAt(where, what, next)) &&
      counted + 1 + Pending(where, what, next) == NonOverlappingCount(where, what)
  {
    CountFromIndexOf(where, what, pos + |what|);
  }

  /** StrEntryCount: the number of non-overlapping occurrences; an empty needle in an empty string counts once. */
  method StrEntryCount(where: Text, what: Text) returns (entryCount: nat)
    requires what != [] || where == []
    ensures what == [] ==> entryCount == 1
    ensures what != [] ==> entryCount == NonOverlappingCount(where, what)
  {
    if what == [] {
      // here where is empty too: IndexOf finds the empty needle at 0 and the loop stops after one round
      return 1;
    }
    var pos := IndexOfFrom(where, what, 0);
    entryCount := 0;
    CountFromIndexOf(where, what, 0);
    while pos >= 0
      invariant pos == -1 || OccursAt(where, what, pos)
      invariant entryCount + Pending(where, what, pos) == NonOverlappingCount(where, what)
      decreases if pos < 0 then 0 else |where| + 1 - pos
    {
      PendingStep(where, what, pos, entryCount);
      entryCount := entryCount + 1;
      var nextIndex := pos + |what|;
      if nextIndex >= |where| {
        break;
      }
      pos := IndexOfFrom(where, what, nextIndex);
    }
  }

  /** `Repeat(w, n)` is w written n times. */
  function Repeat(w: Text, n: nat): (r: Text)
    ensures |r| == n * |w|
  {
    if n == 0 then [] else w + Repeat(w, n - 1)
  }

  lemma OccursShift(w: Text, t: Text, i: nat)
    requires i + |w| <= |t|
    ensures OccursAt(w + t, w, |w| + i) == OccursAt(t, w, i)
  {
    assert (w + t)[|w| + i..|w| + i + |w|] == t[i..i + |w|];
  }

  /** Counting in w + t past the leading w is counting in t. */
  lemma {:induction false} CountShift(w: Text, t: Text, i: nat)
    requires w != [] && i <= |t|
    decreases |t| - i
    ensures CountFrom(w + t, w, |w| + i) == CountFrom(t, w, i)
  {
    if i + |w| <= |t| {
      OccursShift(w, t, i);
      if OccursAt(t, w, i) {
        CountShift(w, t, i + |w|);
      } else {
        CountShift(w, t, i + 1);
      }
    }
  }

  /** A needle written n times in a row counts n times. */
  lemma {:induction false} CountRepeat(w: Text, n: nat)
    requires w != []
    ensures NonOverlappingCount(Repeat(w, n), w) == n
  {
    if n > 0 {
      var t := Repeat(w, n - 1);
      assert (w + t)[0..|w|] == w;
      CountShift(w, t, 0);
      CountRepeat(w, n - 1);
    }
  }

  // ---------------------------------------------------------------- Chr / ChrCode

  datatype BuiltinError = WrongStackCondition

  /** Chr: the one-unit string for a code in 0..65535, "" for any other code. */
  function Chr(code: int): (r: Text)
    ensures r != [] <==> 0 <= code < 0x1_0000
    ensures r != [] ==> r == [code as Char16]
    ensures r == [] || |r| == 1
  {
    if 0 <= code < 0x1_0000 then [code as Char16] else []
  }

  /**
   * ChrCode: with two arguments the code at the 1-based position, with one
   * the code of the first unit; -1 for a position outside the string; any
   * other argument count is a stack error.
   */
  function ChrCode(argCount: int, s: Text, position: int): Result<int, BuiltinError>
  {
    var i := if argCount == 2 then position - 1 else if argCount == 1 then 0 else -1;
    if argCount != 1 && argCount != 2 then Err(WrongStackCondition)
    else if 0 <= i < |s| then Ok(s[i] as int)
    else Ok(-1)
  }

  /** A stack error exactly for a wrong argument count; otherwise the code of the unit at the
      position, or -1 outside the string. */
  lemma ChrCodeRules(argCount: int, s: Text, position: int)
    ensures var r := ChrCode(argCount, s, position);
      (r.Err? <==> argCount != 1 && argCount != 2)
      && (r.Ok? ==> -1 <= r.value < 0x1_0000)
      && (r.Ok? ==> (var i := if argCount == 2 then position - 1 else 0;
                     (r.value == -1 <==> !(0 <= i < |s|)) && (0 <= i < |s| ==> r.value == s[i] as int)))
  {
  }

  /** ChrCode undoes Chr, and Chr undoes ChrCode at every position. */
  lemma ChrCodeRoundTrip(code: int, s: Text, position: int)
    requires 0 <= code < 0x1_0000
    requires 1 <= position <= |s|
    ensures ChrCode(1, Chr(code), 0) == Ok(code)
    ensures Chr(ChrCode(2, s, position).value) == s[position - 1..position]
  {
  }

  // ---------------------------------------------------------------- TrimR

  /** Char.IsWhiteSpace: the Unicode space, line and paragraph separators and U+0009-U+000D, U+0085. */
  predicate IsWhiteSpace(c: Char16)
  {
    (9 <= c <= 13) || c == 32 || c == 0x85 || c == 0xA0 || c == 0x1680
    || (0x2000 <= c <= 0x200A) || c == 0x2028 || c == 0x2029 || c == 0x202F
    || c == 0x205F || c == 0x3000
  }

  /** TrimR: the longest prefix of s that does not end with white space; what is cut off is all white space. */
  method TrimR(s: Text) returns (r: Text)
    ensures |r| <= |s| && r == s[..|r|]
    ensures r == [] || !IsWhiteSpace(r[|r| - 1])
    ensures forall j :: |r| <= j < |s| ==> IsWhiteSpace(s[j])
  {
    var i := |s| - 1;
    while i >= 0
      invariant -1 <= i < |s|
      invariant forall j :: i < j < |s| ==> IsWhiteSpace(s[j])
    {
      if !IsWhiteSpace(s[i]) {
        return s[..i + 1];
      }
      i := i - 1;
    }
    return [];
  }

  // ---------------------------------------------------------------- PowInt

  /** b raised to the power e. */
  function Pow(b: int, e: nat): int
  {
    if e == 0 then 1 else b * Pow(b, e - 1)
  }

  lemma {:induction false} PowAdd(b: int, m: nat, n: nat)
    ensures Pow(b, m + n) == Pow(b, m) * Pow(b, n)
  {
    if m > 0 {
      PowAdd(b, m - 1, n);
      assert Pow(b, m + n) == b * Pow(b, m - 1 + n);
    }
  }

  lemma {:induction false} PowSquare(b: int, k: nat)
    ensures Pow(b * b, k) == Pow(b, 2 * k)
  {
    if k > 0 {
      PowSquare(b, k - 1);
      calc {
        Pow(b, 2 * k);
        b * Pow(b, 2 * k - 1);
        b * (b * Pow(b, 2 * (k - 1)));
        (b * b) * Pow(b, 2 * (k - 1));
        (b * b) * Pow(b * b, k - 1);
        Pow(b * b, k);
      }
    }
  }

  /** One step of binary exponentiation: the low bit of e, and the square of b for the rest. */
  lemma PowHalve(b: int, e: nat)
    ensures Pow(b, e) == (if e % 2 == 1 then b else 1) * Pow(b * b, e / 2)
  {
    PowSquare(b, e / 2);
    if e % 2 == 1 {
      assert Pow(b, e) == b * Pow(b, e - 1);
      assert e - 1 == 2 * (e / 2);
    } else {
      assert e == 2 * (e / 2);
    }
  }

  /** PowInt: binary exponentiation by squaring, for an unsigned 32-bit exponent. */
  method PowInt(bas: int, exp: nat) returns (pow: int)
    requires exp < 0x1_0000_0000
    ensures pow == Pow(bas, exp)
  {
    var b, e := bas, exp;
    pow := 1;
    while true
      invariant pow * Pow(b, e) == Pow(bas, exp)
      decreases e
    {
      PowHalve(b, e);
      if e % 2 == 1 {
        assert pow * Pow(b, e) == (pow * b) * Pow(b * b, e / 2);
        pow := pow * b;
      }
      e := e / 2;
      if e == 0 {
        break;
      }
      b := b * b;
    }
  }
}

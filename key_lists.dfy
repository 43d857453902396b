/** The comma-separated name lists of the keys-and-values constructors: String.Split and String.Trim. */
module KeyLists {
  import opened Builtins
  import opened Sequences

  const Comma: Char16 := 44

  // ---------------------------------------------------------------- splitting the key list

  /** String.Split(sep): the pieces between the separators, in order, empty pieces included. */
  function Split(s: Text, sep: Char16): (pieces: seq<Text>)
    ensures |pieces| >= 1
    ensures forall k :: 0 <= k < |pieces| ==> sep !in pieces[k]
  {
    if |s| == 0 then [[]]
    else
      var rest := Split(s[1..], sep);
      if s[0] == sep then [[]] + rest
      else [[s[0]] + rest[0]] + rest[1..]
  }

  /** String.Join(sep, pieces). */
  function Join(pieces: seq<Text>, sep: Char16): Text
    requires |pieces| >= 1
  {
    if |pieces| == 1 then pieces[0] else pieces[0] + [sep] + Join(pieces[1..], sep)
  }

  lemma {:induction false} JoinSplit(s: Text, sep: Char16)
    ensures Join(Split(s, sep), sep) == s
  {
    if s != [] {
      var rest := Split(s[1..], sep);
      JoinSplit(s[1..], sep);
      if s[0] == sep {
        assert Split(s, sep)[1..] == rest;
      } else {
        var pieces := Split(s, sep);
        assert pieces[1..] == rest[1..];
        if |rest| == 1 {
          assert Join(pieces, sep) == [s[0]] + rest[0];
        } else {
          assert Join(rest, sep) == rest[0] + [sep] + Join(rest[1..], sep);
          assert Join(pieces, sep) == [s[0]] + rest[0] + [sep] + Join(rest[1..], sep);
        }
        assert s == [s[0]] + s[1..];
      }
    }
  }

  lemma {:induction false} SplitOfPiece(p: Text, t: Text, sep: Char16)
    requires sep !in p
    ensures Split(p, sep) == [p]
    ensures Split(p + [sep] + t, sep) == [p] + Split(t, sep)
  {
    if p != [] {
      SplitOfPiece(p[1..], t, sep);
      assert (p + [sep] + t)[1..] == p[1..] + [sep] + t;
      assert [p[0]] + p[1..] == p;
    } else {
      assert p + [sep] + t == [sep] + t;
      assert ([sep] + t)[1..] == t;
    }
  }

  /** Splitting undoes joining when no piece holds the separator. */
  lemma {:induction false} SplitJoin(pieces: seq<Text>, sep: Char16)
    requires |pieces| >= 1
    requires forall k :: 0 <= k < |pieces| ==> sep !in pieces[k]
    ensures Split(Join(pieces, sep), sep) == pieces
  {
    if |pieces| == 1 {
      SplitOfPiece(pieces[0], [], sep);
    } else {
      SplitJoin(pieces[1..], sep);
      SplitOfPiece(pieces[0], Join(pieces[1..], sep), sep);
      assert pieces == [pieces[0]] + pieces[1..];
    }
  }

  // ---------------------------------------------------------------- trimming

  /** String.TrimStart(): the white space at the front removed. */
  function TrimStart(s: Text): (r: Text)
    ensures |r| <= |s| && r == s[|s| - |r|..]
    ensures forall j :: 0 <= j < |s| - |r| ==> IsWhiteSpace(s[j])
    ensures r == [] || !IsWhiteSpace(r[0])
  {
    if |s| > 0 && IsWhiteSpace(s[0]) then TrimStart(s[1..]) else s
  }

  /** String.TrimEnd(): the white space at the back removed. */
  function TrimEnd(s: Text): (r: Text)
    ensures |r| <= |s| && r == s[..|r|]
    ensures forall j :: |r| <= j < |s| ==> IsWhiteSpace(s[j])
    ensures r == [] || !IsWhiteSpace(r[|r| - 1])
  {
    if |s| > 0 && IsWhiteSpace(s[|s| - 1]) then TrimEnd(s[..|s| - 1]) else s
  }

  /** String.Trim(): the white space at both ends removed. */
  function Trim(s: Text): Text
  {
    TrimEnd(TrimStart(s))
  }

  /** Trim removes exactly white space from the ends: it is empty iff s is all white space,
      and otherwise it is a slice of s that starts and ends with a non-space. */
  lemma TrimShape(s: Text)
    ensures Trim(s) == [] <==> forall j :: 0 <= j < |s| ==> IsWhiteSpace(s[j])
    ensures Trim(s) != [] ==> !IsWhiteSpace(Trim(s)[0]) && !IsWhiteSpace(Trim(s)[|Trim(s)| - 1])
    ensures |Trim(s)| <= |s|
    ensures Trim(s) == s[|s| - |TrimStart(s)|..][..|Trim(s)|]
  {
    var a := TrimStart(s);
    if Trim(s) != [] {
      assert Trim(s)[0] == a[0];
    }
  }

  lemma TrimIdempotent(s: Text)
    ensures Trim(Trim(s)) == Trim(s)
  {
    var t := Trim(s);
    TrimShape(s);
    if t != [] {
      assert TrimStart(t) == t;
    }
  }

  /** The name one piece of the key list contributes: none when it is blank. */
  function TrimmedPiece(item: Text): seq<Text>
  {
    if |Trim(item)| == 0 then [] else [Trim(item)]
  }

  /** The property names of a key list: the trimmed pieces between commas, blank ones skipped. */
  function PropNames(items: seq<Text>): seq<Text>
  {
    FlatMap(TrimmedPiece, items)
  }

  /** The names the keys-and-values form registers, in order. */
  function KeyNames(strProperties: Text): seq<Text>
  {
    PropNames(Split(strProperties, Comma))
  }

  lemma KeyNamesOfEmpty()
    ensures KeyNames([]) == []
  {
    var items := Split([], Comma);
    assert items == [[]];
    assert TrimmedPiece([]) == [];
    assert items[..0] == [];
    assert FlatMap(TrimmedPiece, items) == FlatMap(TrimmedPiece, items[..0]) + TrimmedPiece(items[0]);
  }

  /** The names of one more piece: those of the pieces before, then the piece's own. */
  lemma PropNamesStep(items: seq<Text>, i: nat)
    requires i < |items|
    ensures PropNames(items[..i + 1]) == PropNames(items[..i]) + TrimmedPiece(items[i])
  {
    assert items[..i + 1][..i] == items[..i];
  }

  /** A non-blank piece contributes its trimmed text to the names of the whole list. */
  lemma PieceInPropNames(items: seq<Text>, i: nat)
    requires i < |items| && Trim(items[i]) != []
    ensures Trim(items[i]) in PropNames(items)
  {
    InFlatMap(TrimmedPiece, items, i, Trim(items[i]));
  }
}

/**
 * Splitting an EPUB CFI location string into pieces, and turning the pieces
 * into the tokens of the sort key (`parse_cfi` and `cfi_to_tuple` in bookbits.py).
 */
module CfiParse {

  // ---------------------------------------------------------------------------
  // Python slicing: `s[start:stop]`
  // ---------------------------------------------------------------------------

  /** A slice bound as Python normalises it: negative bounds count from the end, then clamp to [0, n]. */
  function SliceBound(i: int, n: nat): (b: nat)
    ensures b <= n
  {
    if i < 0 then (if i + n < 0 then 0 else i + n)
    else if i > n then n
    else i
  }

  /** Python's `s[start:stop]` with a step of one: empty when the bounds cross. */
  function PySlice(s: string, start: int, stop: int): string
  {
    var a := SliceBound(start, |s|);
    var b := SliceBound(stop, |s|);
    if a < b then s[a..b] else ""
  }

  /** The slice `cfi[7:-1]` that opens `parse_cfi`. */
  function CfiBody(cfi: string): string
  {
    PySlice(cfi, 7, -1)
  }

  /**
   * The slice drops exactly the first seven characters and the last one; any
   * string of eight characters or fewer leaves nothing.
   */
  lemma CfiBodyDropsSevenAndOne(cfi: string)
    ensures |cfi| >= 8 ==> cfi == cfi[..7] + CfiBody(cfi) + [cfi[|cfi| - 1]]
    ensures |cfi| <= 8 <==> CfiBody(cfi) == ""
  {
    if |cfi| >= 8 {
      assert cfi == cfi[..7] + cfi[7..|cfi| - 1] + [cfi[|cfi| - 1]];
    }
  }

  // ---------------------------------------------------------------------------
  // `cfi.replace(",", "")`
  // ---------------------------------------------------------------------------

  /** Every comma removed, every other character kept in order. */
  function RemoveCommas(s: string): (r: string)
    ensures ',' !in r
    ensures forall c :: c in r ==> c in s
    ensures forall c :: c != ',' ==> multiset(r)[c] == multiset(s)[c]
  {
    if s == [] then ""
    else
      assert s == [s[0]] + s[1..];
      if s[0] == ',' then RemoveCommas(s[1..]) else [s[0]] + RemoveCommas(s[1..])
  }

  /** A string without commas is left as it is. */
  lemma {:induction false} RemoveCommasNoComma(s: string)
    requires ',' !in s
    ensures RemoveCommas(s) == s
  {
    if s != [] {
      RemoveCommasNoComma(s[1..]);
    }
  }

  /** Removing commas works piecewise: on a concatenation it is the concatenation of the results. */
  lemma {:induction false} RemoveCommasAppend(a: string, b: string)
    ensures RemoveCommas(a + b) == RemoveCommas(a) + RemoveCommas(b)
  {
    if a != [] {
      assert (a + b)[1..] == a[1..] + b;
      assert (a + b)[0] == a[0];
      RemoveCommasAppend(a[1..], b);
    } else {
      assert a + b == b;
    }
  }

  // ---------------------------------------------------------------------------
  // `re.split(r'(/|:|,)', s)`
  // ---------------------------------------------------------------------------

  /** The characters the pattern `(/|:|,)` matches. */
  predicate IsSep(c: char)
  {
    c == '/' || c == ':' || c == ','
  }

  /** The concatenation of all pieces, `"".join(pieces)`. */
  function Concat(pieces: seq<string>): string
  {
    if pieces == [] then "" else pieces[0] + Concat(pieces[1..])
  }

  /** A text piece: no separator character in it (it may be empty). */
  predicate TextPiece(t: string)
  {
    forall j :: 0 <= j < |t| ==> !IsSep(t[j])
  }

  /** A separator piece: exactly one separator character. */
  predicate SepPiece(t: string)
  {
    |t| == 1 && IsSep(t[0])
  }

  /**
   * The shape a capturing split always has: an odd number of pieces, the
   * separators at odd indices, text at even indices.
   */
  predicate SplitShaped(pieces: seq<string>)
  {
    && |pieces| % 2 == 1
    && (forall i :: 0 <= i < |pieces| && i % 2 == 1 ==> SepPiece(pieces[i]))
    && (forall i :: 0 <= i < |pieces| && i % 2 == 0 ==> TextPiece(pieces[i]))
  }

  /** Concatenation peels one piece off the front. */
  lemma ConcatCons(p: string, ps: seq<string>)
    ensures Concat([p] + ps) == p + Concat(ps)
  {
    assert ([p] + ps)[1..] == ps;
  }

  /** Joining two runs of pieces is joining each and concatenating the results. */
  lemma {:induction false} ConcatAppend(a: seq<string>, b: seq<string>)
    ensures Concat(a + b) == Concat(a) + Concat(b)
  {
    if a == [] {
      assert a + b == b;
    } else {
      assert (a + b)[1..] == a[1..] + b;
      ConcatAppend(a[1..], b);
    }
  }

  /** A separator in front of a shaped split adds an empty text piece and the separator piece. */
  lemma SepConsShaped(c: char, rest: seq<string>)
    requires IsSep(c) && SplitShaped(rest)
    ensures SplitShaped(["", [c]] + rest)
    ensures Concat(["", [c]] + rest) == [c] + Concat(rest)
  {
    var r := ["", [c]] + rest;
    assert r[0] == "" && r[1] == [c];
    assert forall i :: 2 <= i < |r| ==> r[i] == rest[i - 2];
    assert r[1..] == [[c]] + rest;
    ConcatCons("", r[1..]);
    ConcatCons([c], rest);
  }

  /** A text character in front of a shaped split extends its first text piece. */
  lemma TextConsShaped(c: char, rest: seq<string>)
    requires !IsSep(c) && SplitShaped(rest)
    ensures SplitShaped([[c] + rest[0]] + rest[1..])
    ensures Concat([[c] + rest[0]] + rest[1..]) == [c] + Concat(rest)
  {
    var r := [[c] + rest[0]] + rest[1..];
    assert |r| == |rest|;
    assert forall i :: 1 <= i < |r| ==> r[i] == rest[i];
    assert TextPiece(rest[0]);
    assert TextPiece(r[0]);
    TextConsConcat(c, rest[0], rest[1..]);
    assert rest == [rest[0]] + rest[1..];
  }

  /** Extending the first piece extends the concatenation. */
  lemma TextConsConcat(c: char, first: string, more: seq<string>)
    ensures Concat([[c] + first] + more) == [c] + Concat([first] + more)
  {
    ConcatCons([c] + first, more);
    ConcatCons(first, more);
  }

  /**
   * `re.split` with a capturing group: the text between separators, with
   * each separator kept as a piece of its own. Adjacent separators, and a
   * separator at either end, leave an empty text piece.
   */
  function Split(s: string): (pieces: seq<string>)
    ensures SplitShaped(pieces)
    ensures Concat(pieces) == s
  {
    if s == [] then [""]
    else
      var rest := Split(s[1..]);
      assert s == [s[0]] + s[1..];
      if IsSep(s[0]) then
        SepConsShaped(s[0], rest);
        ["", [s[0]]] + rest
      else
        TextConsShaped(s[0], rest);
        [[s[0]] + rest[0]] + rest[1..]
  }

  /** Every character of a piece occurs in the concatenation. */
  lemma {:induction false} ConcatHasPieceChars(pieces: seq<string>, i: int, j: int)
    requires 0 <= i < |pieces| && 0 <= j < |pieces[i]|
    ensures pieces[i][j] in Concat(pieces)
  {
    if i == 0 {
      assert Concat(pieces) == pieces[0] + Concat(pieces[1..]);
      assert Concat(pieces)[j] == pieces[0][j];
    } else {
      ConcatHasPieceChars(pieces[1..], i - 1, j);
      assert Concat(pieces) == pieces[0] + Concat(pieces[1..]);
    }
  }

  /** A shaped split whose first text piece is not empty, with that piece's first character taken off. */
  lemma TextPeel(pieces: seq<string>)
    requires SplitShaped(pieces) && pieces[0] != ""
    ensures !IsSep(pieces[0][0])
    ensures SplitShaped([pieces[0][1..]] + pieces[1..])
    ensures Concat(pieces) == [pieces[0][0]] + Concat([pieces[0][1..]] + pieces[1..])
    ensures pieces == [[pieces[0][0]] + ([pieces[0][1..]] + pieces[1..])[0]] + ([pieces[0][1..]] + pieces[1..])[1..]
  {
    var p0 := pieces[0];
    var tail := [p0[1..]] + pieces[1..];
    assert p0 == [p0[0]] + p0[1..];
    assert pieces == [p0] + pieces[1..];
    ConcatCons(p0, pieces[1..]);
    ConcatCons(p0[1..], pieces[1..]);
    assert forall i :: 1 <= i < |tail| ==> tail[i] == pieces[i];
    assert forall j :: 0 <= j < |tail[0]| ==> tail[0][j] == p0[j + 1];
    assert tail[1..] == pieces[1..];
  }

  /** A shaped split that starts with an empty text piece and a separator, with both taken off. */
  lemma SepPeel(pieces: seq<string>)
    requires SplitShaped(pieces) && pieces[0] == "" && |pieces| > 1
    ensures |pieces[1]| == 1 && IsSep(pieces[1][0])
    ensures SplitShaped(pieces[2..])
    ensures Concat(pieces) == [pieces[1][0]] + Concat(pieces[2..])
    ensures pieces == ["", [pieces[1][0]]] + pieces[2..]
  {
    var tail := pieces[2..];
    assert pieces == [""] + ([pieces[1]] + tail);
    ConcatCons("", [pieces[1]] + tail);
    ConcatCons(pieces[1], tail);
    assert pieces[1] == [pieces[1][0]];
    assert forall i :: 0 <= i < |tail| ==> tail[i] == pieces[i + 2];
  }

  /**
   * The split is the only sequence of that shape that concatenates back to
   * its input: it is determined by the two facts `Split` promises.
   */
  lemma {:induction false} SplitUnique(s: string, pieces: seq<string>)
    requires SplitShaped(pieces)
    requires Concat(pieces) == s
    ensures pieces == Split(s)
    decreases |s|
  {
    if pieces[0] != "" {
      TextPeel(pieces);
      var tail := [pieces[0][1..]] + pieces[1..];
      assert s[1..] == Concat(tail);
      SplitUnique(s[1..], tail);
    } else if |pieces| == 1 {
      assert s == "";
    } else {
      SepPeel(pieces);
      assert s[1..] == Concat(pieces[2..]);
      SplitUnique(s[1..], pieces[2..]);
    }
  }

  // ---------------------------------------------------------------------------
  // `parse_cfi`
  // ---------------------------------------------------------------------------

  /** `parse_cfi`: slice, delete commas, split. */
  function ParseCfi(cfi: string): seq<string>
  {
    Split(RemoveCommas(CfiBody(cfi)))
  }

  /**
   * Because the commas are gone before the split, the `,` alternative of the
   * pattern never matches: the separators are `/` and `:` only, no piece holds
   * a comma, and the pieces reassemble the comma-free body.
   */
  lemma ParseCfiPieces(cfi: string)
    ensures SplitShaped(ParseCfi(cfi))
    ensures forall i :: 0 <= i < |ParseCfi(cfi)| ==> ',' !in ParseCfi(cfi)[i]
    ensures forall i :: 0 <= i < |ParseCfi(cfi)| && i % 2 == 1 ==> ParseCfi(cfi)[i] == "/" || ParseCfi(cfi)[i] == ":"
    ensures forall i :: 0 <= i < |ParseCfi(cfi)| && i % 2 == 0 ==> '/' !in ParseCfi(cfi)[i] && ':' !in ParseCfi(cfi)[i]
    ensures Concat(ParseCfi(cfi)) == RemoveCommas(CfiBody(cfi))
  {
    NoCommaPieces(ParseCfi(cfi), RemoveCommas(CfiBody(cfi)));
  }

  /** Pieces that concatenate to a comma-free string hold no comma. */
  lemma NoCommaPieces(pieces: seq<string>, clean: string)
    requires SplitShaped(pieces) && Concat(pieces) == clean && ',' !in clean
    ensures forall i :: 0 <= i < |pieces| ==> ',' !in pieces[i]
    ensures forall i :: 0 <= i < |pieces| && i % 2 == 1 ==> pieces[i] == "/" || pieces[i] == ":"
    ensures forall i :: 0 <= i < |pieces| && i % 2 == 0 ==> '/' !in pieces[i] && ':' !in pieces[i]
  {
    forall i, j | 0 <= i < |pieces| && 0 <= j < |pieces[i]|
      ensures pieces[i][j] != ','
    {
      ConcatHasPieceChars(pieces, i, j);
    }
    forall i | 0 <= i < |pieces| && i % 2 == 1
      ensures pieces[i] == "/" || pieces[i] == ":"
    {
      assert SepPiece(pieces[i]);
      assert pieces[i] == [pieces[i][0]];
    }
    forall i | 0 <= i < |pieces| && i % 2 == 0
      ensures '/' !in pieces[i] && ':' !in pieces[i]
    {
      assert TextPiece(pieces[i]);
    }
  }

  /** The prefix an annotation location carries. */
  const CfiPrefix: string := "epubcfi("

  /**
   * The slice keeps the `(` of the prefix, so the first piece starts with `(`
   * and is never empty; when the path starts right after the prefix the first
   * piece is exactly `"("`.
   */
  lemma ParseCfiFirstPiece(cfi: string)
    requires |cfi| >= 9 && cfi[..8] == CfiPrefix
    ensures ParseCfi(cfi)[0] != "" && ParseCfi(cfi)[0][0] == '('
    ensures |cfi| >= 10 && cfi[8] == '/' ==> ParseCfi(cfi)[0] == "("
  {
    var body := CfiBody(cfi);
    assert body == cfi[7..|cfi| - 1];
    assert body == ['('] + body[1..];
    var clean := RemoveCommas(body);
    assert clean == ['('] + RemoveCommas(body[1..]);
    var rest := Split(clean[1..]);
    assert clean == [clean[0]] + clean[1..];
    assert Split(clean) == [['('] + rest[0]] + rest[1..];
    if |cfi| >= 10 && cfi[8] == '/' {
      assert body[1..] == ['/'] + body[2..];
      assert clean[1..] == ['/'] + RemoveCommas(body[2..]);
      assert rest[0] == "";
    }
  }

  // ---------------------------------------------------------------------------
  // `cfi_to_tuple`
  // ---------------------------------------------------------------------------

  /** One element of the sort key: a Python `int` or a Python `str`. */
  datatype Tok = I(n: nat) | S(s: string)

  /** `str.isdigit()` for ASCII: a non-empty run of decimal digits. */
  predicate IsDigits(p: string)
  {
    |p| > 0 && forall i :: 0 <= i < |p| ==> '0' <= p[i] <= '9'
  }

  /** `int(p)` for a run of decimal digits (leading zeros allowed). */
  function DigitsValue(p: string): nat
    requires forall i :: 0 <= i < |p| ==> '0' <= p[i] <= '9'
  {
    if p == [] then 0
    else DigitsValue(p[..|p| - 1]) * 10 + (p[|p| - 1] as int - '0' as int)
  }

  /** The token one piece becomes: an `int` when it is all digits, the piece itself otherwise. */
  function ToTok(p: string): Tok
  {
    if IsDigits(p) then I(DigitsValue(p)) else S(p)
  }

  /** The sort key of a location string: `cfi_to_tuple(cfi)`. */
  function Key(cfi: string): seq<Tok>
  {
    var parts := ParseCfi(cfi);
    seq(|parts|, i requires 0 <= i < |parts| => ToTok(parts[i]))
  }

  /**
   * What the key looks like: it is as long as the piece list, every separator
   * position holds the string `"/"` or `":"`, and a key of a location with the
   * prefix starts with a string token beginning with `(`.
   */
  lemma KeyShape(cfi: string)
    ensures |Key(cfi)| % 2 == 1 && |Key(cfi)| == |ParseCfi(cfi)|
    ensures forall i :: 0 <= i < |Key(cfi)| && i % 2 == 1 ==> Key(cfi)[i] == S("/") || Key(cfi)[i] == S(":")
    ensures |cfi| >= 9 && cfi[..8] == CfiPrefix ==> Key(cfi)[0].S? && Key(cfi)[0].s != "" && Key(cfi)[0].s[0] == '('
  {
    var parts := ParseCfi(cfi);
    ParseCfiPieces(cfi);
    forall i | 0 <= i < |parts| && i % 2 == 1
      ensures Key(cfi)[i] == S("/") || Key(cfi)[i] == S(":")
    {
      assert parts[i] == "/" || parts[i] == ":";
      assert !IsDigits(parts[i]);
    }
    if |cfi| >= 9 && cfi[..8] == CfiPrefix {
      ParseCfiFirstPiece(cfi);
      assert !IsDigits(parts[0]);
    }
  }

  /** The key holds one token per piece, in order. */
  lemma KeyAt(cfi: string)
    ensures |Key(cfi)| == |ParseCfi(cfi)|
    ensures forall i :: 0 <= i < |Key(cfi)| ==> Key(cfi)[i] == ToTok(ParseCfi(cfi)[i])
  {
  }

  /** The strings `cfi_to_tuple` tests pieces against. */
  const SepStrings: seq<string> := ["/", ":", ","]

  /**
   * `cfi_to_tuple`: walks the pieces and appends one token per piece. The
   * `(',', '/', ':')` test and the final `else` both append the piece as it is.
   */
  method CfiToTuple(cfi: string) returns (t: seq<Tok>)
    ensures |t| == |ParseCfi(cfi)|
    ensures forall i :: 0 <= i < |t| ==> t[i] == ToTok(ParseCfi(cfi)[i])
    ensures t == Key(cfi)
  {
    var parts := ParseCfi(cfi);
    var result: seq<Tok> := [];
    for k := 0 to |parts|
      invariant |result| == k
      invariant forall i :: 0 <= i < k ==> result[i] == ToTok(parts[i])
    {
      var part := parts[k];
      if IsDigits(part) {
        result := result + [I(DigitsValue(part))];
      } else if part in SepStrings {
        result := result + [S(part)];
      } else {
        result := result + [S(part)];
      }
      assert result[k] == ToTok(part);
    }
    t := result;
    KeyAt(cfi);
  }

  /** No piece of a parsed location is `","`, so that branch of `cfi_to_tuple` is never taken. */
  lemma CommaBranchUnreachable(cfi: string, i: int)
    requires 0 <= i < |ParseCfi(cfi)|
    ensures ParseCfi(cfi)[i] != ","
  {
    ParseCfiPieces(cfi);
    assert ',' in ",";
  }
}

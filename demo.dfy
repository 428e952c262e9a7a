/**
 * The example list of annotation locations in bookbits.py (lines 54-64):
 * each location's key follows from the pieces its body is made of, and the
 * list is already in key order, so `sort_epubcfi` gives it back unchanged.
 */
module CfiDemo {
  import opened CfiParse
  import opened CfiOrder
  import opened CfiSort

  // ---------------------------------------------------------------------------
  // Locations written as their pieces
  // ---------------------------------------------------------------------------

  /**
   * The location whose body is the concatenation of `raw`: the `epubcfi`
   * prefix before it and the closing `)` after it (the `(` is the first piece).
   */
  function Location(raw: seq<string>): string
  {
    "epubcfi" + Concat(raw) + ")"
  }

  /**
   * The pieces a body splits into at `/` and `:`, before its commas are
   * removed: separators at odd indices, text without `/` or `:` at even
   * indices (text may still hold commas).
   */
  predicate RawShaped(raw: seq<string>)
  {
    && |raw| % 2 == 1
    && (forall i :: 0 <= i < |raw| && i % 2 == 1 ==> raw[i] == "/" || raw[i] == ":")
    && (forall i :: 0 <= i < |raw| && i % 2 == 0 ==> '/' !in raw[i] && ':' !in raw[i])
  }

  /** Every piece with its commas removed. */
  function Cleaned(raw: seq<string>): (r: seq<string>)
    ensures |r| == |raw|
    ensures forall i :: 0 <= i < |raw| ==> r[i] == RemoveCommas(raw[i])
  {
    seq(|raw|, i requires 0 <= i < |raw| => RemoveCommas(raw[i]))
  }

  /** Removing the commas of a body removes them piece by piece. */
  lemma {:induction false} RemoveCommasConcat(raw: seq<string>)
    ensures RemoveCommas(Concat(raw)) == Concat(Cleaned(raw))
  {
    if raw != [] {
      RemoveCommasAppend(raw[0], Concat(raw[1..]));
      RemoveCommasConcat(raw[1..]);
      assert Cleaned(raw)[1..] == Cleaned(raw[1..]);
    }
  }

  /** Without their commas, raw pieces have the shape of a capturing split. */
  lemma CleanedShaped(raw: seq<string>)
    requires RawShaped(raw)
    ensures SplitShaped(Cleaned(raw))
  {
    var c := Cleaned(raw);
    forall i | 0 <= i < |c| && i % 2 == 1 ensures SepPiece(c[i]) {
      if raw[i] == "/" { RemoveCommasNoComma("/"); } else { RemoveCommasNoComma(":"); }
    }
    forall i | 0 <= i < |c| && i % 2 == 0 ensures TextPiece(c[i]) {
      forall j | 0 <= j < |c[i]| ensures !IsSep(c[i][j]) {
        assert c[i][j] in c[i];
      }
    }
  }

  /** The key a location gets from its raw pieces: one token per piece, read without its commas. */
  function PiecesKey(raw: seq<string>): seq<Tok>
  {
    seq(|raw|, i requires 0 <= i < |raw| => ToTok(RemoveCommas(raw[i])))
  }

  /** `cfi_to_tuple` of a location is the key of its raw pieces. */
  lemma RawKey(raw: seq<string>)
    requires RawShaped(raw)
    ensures Key(Location(raw)) == PiecesKey(raw)
  {
    var loc := Location(raw);
    assert loc[7..|loc| - 1] == Concat(raw);
    assert CfiBody(loc) == Concat(raw);
    RemoveCommasConcat(raw);
    CleanedShaped(raw);
    SplitUnique(Concat(Cleaned(raw)), Cleaned(raw));
  }

  /**
   * Two piece lists compare as the first pieces where they differ once
   * commas are ignored: after prefixes `p` and `q` that agree without
   * commas and the same separator, `x` against `y`.
   */
  lemma PiecesCompareAfter(a: seq<string>, b: seq<string>, p: seq<string>, q: seq<string>, sep: string, x: string, y: string)
    requires p + [sep, x] <= a && q + [sep, y] <= b
    requires Cleaned(p) == Cleaned(q)
    requires ToTok(RemoveCommas(x)) != ToTok(RemoveCommas(y))
    ensures CompareKeys(PiecesKey(a), PiecesKey(b)) == CompareTok(ToTok(RemoveCommas(x)), ToTok(RemoveCommas(y)))
  {
    var d := |p| + 1;
    var pa, qb := p + [sep, x], q + [sep, y];
    assert |Cleaned(p)| == |Cleaned(q)|;
    assert |pa| == |qb| == d + 1;
    var ka, kb := PiecesKey(a), PiecesKey(b);
    forall i | 0 <= i <= d ensures a[i] == pa[i] && b[i] == qb[i] {
      assert pa[i] == a[..|pa|][i] && qb[i] == b[..|qb|][i];
    }
    forall i | 0 <= i < d ensures ka[i] == kb[i] {
      if i < |p| {
        assert pa[i] == p[i] && qb[i] == q[i];
        assert Cleaned(p)[i] == Cleaned(q)[i];
      } else {
        assert pa[i] == sep == qb[i];
      }
    }
    assert a[d] == x && b[d] == y;
    assert ka[..d] == kb[..d];
    CompareKeysFirstDifference(ka, kb, d);
  }

  /** A location whose pieces have a key below another's sorts before it. */
  lemma LocationsInOrder(a: seq<string>, b: seq<string>)
    requires RawShaped(a) && RawShaped(b)
    requires CompareKeys(PiecesKey(a), PiecesKey(b)) == Less
    ensures KeyLe(Location(a), Location(b))
  {
    RawKey(a);
    RawKey(b);
  }

  /**
   * Locations whose raw pieces are shaped, each piece list with a key below
   * the next one's, are in key order.
   */
  lemma SortedFromPieces(raws: seq<seq<string>>)
    requires forall k :: 0 <= k < |raws| ==> RawShaped(raws[k])
    requires forall k :: 0 <= k < |raws| - 1 ==> CompareKeys(PiecesKey(raws[k]), PiecesKey(raws[k + 1])) == Less
    ensures SortedByKey(seq(|raws|, k requires 0 <= k < |raws| => Location(raws[k])))
  {
    var l := seq(|raws|, k requires 0 <= k < |raws| => Location(raws[k]));
    forall k | 0 <= k < |l| - 1 ensures KeyLe(l[k], l[k + 1]) {
      var a, b := raws[k], raws[k + 1];
      assert l[k] == Location(a) && l[k + 1] == Location(b);
      LocationsInOrder(a, b);
    }
    NeighboursSorted(l);
  }

  /** One more separator and text piece keep raw pieces shaped. */
  lemma RawSnoc(p: seq<string>, sep: string, t: string)
    requires RawShaped(p) && '/' !in t && ':' !in t && (sep == "/" || sep == ":")
    ensures RawShaped(p + [sep, t])
  {
    var r := p + [sep, t];
    forall i | 0 <= i < |r| && i % 2 == 1 ensures r[i] == "/" || r[i] == ":" {
      if i < |p| { assert r[i] == p[i]; }
    }
    forall i | 0 <= i < |r| && i % 2 == 0 ensures '/' !in r[i] && ':' !in r[i] {
      if i < |p| { assert r[i] == p[i]; }
    }
  }

  /** A prefix stays a prefix when more is appended. */
  lemma PrefixGrows(p: seq<string>, r: seq<string>, t: seq<string>)
    requires p <= r
    ensures p <= r + t
  {
    assert (r + t)[..|p|] == r[..|p|];
  }

  /** Cleaning one more separator and text piece. */
  lemma CleanedSnoc(p: seq<string>, sep: string, t: string)
    ensures Cleaned(p + [sep, t]) == Cleaned(p) + [RemoveCommas(sep), RemoveCommas(t)]
  {
  }

  /** A text piece with one trailing comma reads as the text alone. */
  lemma TrailingComma(t: string)
    requires ',' !in t
    ensures RemoveCommas(t + ",") == t
  {
    RemoveCommasAppend(t, ",");
    RemoveCommasNoComma(t);
  }

  // ---------------------------------------------------------------------------
  // Step numbers and labels
  // ---------------------------------------------------------------------------

  /** The value of a decimal digit. */
  function DigitOf(c: char): int
  {
    c as int - '0' as int
  }

  /** A two-digit step number. */
  lemma Digits2(p: string)
    requires |p| == 2 && forall i :: 0 <= i < 2 ==> '0' <= p[i] <= '9'
    ensures ToTok(p) == I(DigitOf(p[0]) * 10 + DigitOf(p[1]))
  {
    var one := p[..1];
    assert one[..0] == [];
    assert DigitsValue(one) == DigitOf(p[0]);
    assert IsDigits(p);
  }

  /** A three-digit step number. */
  lemma Digits3(p: string)
    requires |p| == 3 && forall i :: 0 <= i < 3 ==> '0' <= p[i] <= '9'
    ensures ToTok(p) == I(DigitOf(p[0]) * 100 + DigitOf(p[1]) * 10 + DigitOf(p[2]))
  {
    var one := p[..1];
    var two := p[..2];
    assert one[..0] == [];
    assert DigitsValue(one) == DigitOf(p[0]);
    assert two[..1] == one;
    assert DigitsValue(two) == DigitOf(p[0]) * 10 + DigitOf(p[1]);
    assert IsDigits(p);
  }

  /** Labelled steps that first differ in their second character. */
  lemma LabelsDifferAtSecond(a: string, b: string)
    requires |a| >= 2 && |b| >= 2 && a[0] == b[0] && a[1] < b[1] && !IsDigits(a) && !IsDigits(b)
    ensures CompareTok(ToTok(a), ToTok(b)) == Less
  {
    assert CompareStr(a[1..], b[1..]) == Less;
  }

  /** Labelled steps that differ in their first character. */
  lemma LabelsDifferAtFirst(a: string, b: string)
    requires |a| >= 1 && |b| >= 1 && a[0] < b[0] && !IsDigits(a) && !IsDigits(b)
    ensures CompareTok(ToTok(a), ToTok(b)) == Less
  {
  }

  /** The chapter labels read as strings without commas, in chapter order. */
  lemma ChapterLabels()
    ensures ToTok(RemoveCommas("16[chapter1]!")) != ToTok(RemoveCommas("18[chapter2]!"))
    ensures CompareTok(ToTok(RemoveCommas("16[chapter1]!")), ToTok(RemoveCommas("18[chapter2]!"))) == Less
    ensures ToTok(RemoveCommas("18[chapter2]!")) != ToTok(RemoveCommas("20[chapter3]!"))
    ensures CompareTok(ToTok(RemoveCommas("18[chapter2]!")), ToTok(RemoveCommas("20[chapter3]!"))) == Less
  {
    RemoveCommasNoComma("16[chapter1]!");
    RemoveCommasNoComma("18[chapter2]!");
    RemoveCommasNoComma("20[chapter3]!");
    assert "16[chapter1]!"[2] == '[' && "18[chapter2]!"[2] == '[' && "20[chapter3]!"[2] == '[';
    LabelsDifferAtSecond("16[chapter1]!", "18[chapter2]!");
    LabelsDifferAtFirst("18[chapter2]!", "20[chapter3]!");
  }

  // ---------------------------------------------------------------------------
  // The example list
  // ---------------------------------------------------------------------------

  /** The path to the spine and the chapter documents the examples point into. */
  const Spine: seq<string> := ["("] + ["/", "6"]
  const Chapter1: seq<string> := Spine + ["/", "16[chapter1]!"]
  const Chapter2: seq<string> := Spine + ["/", "18[chapter2]!"]
  const Chapter3: seq<string> := Spine + ["/", "20[chapter3]!"]

  /** The nine locations, bookbits.py lines 55 to 63, split at every `/` and `:`. */
  const R55: seq<string> := Chapter1 + ["/", "4,"] + ["/", "174"] + ["/", "2"] + ["/", "1"] + [":", "0,"] + ["/", "180"] + ["/", "1"] + [":", "222"]
  const R56: seq<string> := Chapter1 + ["/", "4"] + ["/", "232"] + ["/", "1,"] + [":", "3,"] + [":", "1022"]
  const R57: seq<string> := Chapter2 + ["/", "4,"] + ["/", "46"] + ["/", "1"] + [":", "0,"] + ["/", "48"] + ["/", "1"] + [":", "497"]
  const R58: seq<string> := Chapter2 + ["/", "4"] + ["/", "138"] + ["/", "1,"] + [":", "0,"] + [":", "431"]
  const R59: seq<string> := Chapter2 + ["/", "4"] + ["/", "142"] + ["/", "3,"] + [":", "554,"] + [":", "970"]
  const R60: seq<string> := Chapter2 + ["/", "4"] + ["/", "142"] + ["/", "3,"] + [":", "971,"] + [":", "1164"]
  const R61: seq<string> := Chapter3 + ["/", "4"] + ["/", "728"] + ["/", "1,"] + [":", "74,"] + [":", "262"]
  const R62: seq<string> := Chapter3 + ["/", "4"] + ["/", "728"] + ["/", "1,"] + [":", "263,"] + [":", "372"]
  const R63: seq<string> := Chapter3 + ["/", "4,"] + ["/", "742"] + ["/", "3"] + [":", "71,"] + ["/", "744[ch3.6]"] + ["/", "2"] + ["/", "1"] + [":", "0"]

  /** The example list `cfis`, bookbits.py lines 54 to 64. */
  const Cfis: seq<string> := [
    "epubcfi(/6/16[chapter1]!/4,/174/2/1:0,/180/1:222)",
    "epubcfi(/6/16[chapter1]!/4/232/1,:3,:1022)",
    "epubcfi(/6/18[chapter2]!/4,/46/1:0,/48/1:497)",
    "epubcfi(/6/18[chapter2]!/4/138/1,:0,:431)",
    "epubcfi(/6/18[chapter2]!/4/142/3,:554,:970)",
    "epubcfi(/6/18[chapter2]!/4/142/3,:971,:1164)",
    "epubcfi(/6/20[chapter3]!/4/728/1,:74,:262)",
    "epubcfi(/6/20[chapter3]!/4/728/1,:263,:372)",
    "epubcfi(/6/20[chapter3]!/4,/742/3:71,/744[ch3.6]/2/1:0)"]

  /** The pieces of the example list, in its order. */
  const DemoPieces: seq<seq<string>> := [R55, R56, R57, R58, R59, R60, R61, R62, R63]

  /** The locations the pieces join to. */
  const DemoLocations: seq<string> := seq(|DemoPieces|, k requires 0 <= k < |DemoPieces| => Location(DemoPieces[k]))

  // ---------------------------------------------------------------------------
  // The pieces spell the example list
  // ---------------------------------------------------------------------------

  /** Joining one more separator and text piece appends both. */
  lemma ConcatSnoc(p: seq<string>, sep: string, t: string)
    ensures Concat(p + [sep, t]) == Concat(p) + sep + t
  {
    ConcatAppend(p, [sep, t]);
    ConcatCons(sep, [t]);
    ConcatCons(t, []);
    assert [t] == [t] + [];
  }

  /** A location's text up to some piece, grown by one more separator and text piece. */
  lemma PrefixSnoc(p: seq<string>, sep: string, t: string)
    ensures "epubcfi" + Concat(p + [sep, t]) == "epubcfi" + Concat(p) + sep + t
  {
    ConcatSnoc(p, sep, t);
  }

  /** The locations' text up to the end of the spine path. */
  lemma SpineSpelled()
    ensures "epubcfi" + Concat(Spine) == "epubcfi(/6"
  {
    ConcatCons("(", []);
    PrefixSnoc(["("], "/", "6");
  }

  /** The text of the locations in chapter 1 up to the end of its path. */
  lemma Chapter1Spelled()
    ensures "epubcfi" + Concat(Chapter1) == "epubcfi(/6/16[chapter1]!"
  {
    SpineSpelled();
    PrefixSnoc(Spine, "/", "16[chapter1]!");
  }

  /** The text of the locations in chapter 2 up to the end of its path. */
  lemma Chapter2Spelled()
    ensures "epubcfi" + Concat(Chapter2) == "epubcfi(/6/18[chapter2]!"
  {
    SpineSpelled();
    PrefixSnoc(Spine, "/", "18[chapter2]!");
  }

  /** The text of the locations in chapter 3 up to the end of its path. */
  lemma Chapter3Spelled()
    ensures "epubcfi" + Concat(Chapter3) == "epubcfi(/6/20[chapter3]!"
  {
    SpineSpelled();
    PrefixSnoc(Spine, "/", "20[chapter3]!");
  }

  /** Line 55 of the example list, as written there. */
  lemma Literal55()
    ensures Location(R55) == "epubcfi(/6/16[chapter1]!/4,/174/2/1:0,/180/1:222)"
  {
    Chapter1Spelled();
    var p0 := Chapter1;
    var p1 := p0 + ["/", "4,"];
    PrefixSnoc(p0, "/", "4,");
    assert "epubcfi" + Concat(p1) == "epubcfi(/6/16[chapter1]!/4,";
    var p2 := p1 + ["/", "174"];
    PrefixSnoc(p1, "/", "174");
    assert "epubcfi" + Concat(p2) == "epubcfi(/6/16[chapter1]!/4,/174";
    var p3 := p2 + ["/", "2"];
    PrefixSnoc(p2, "/", "2");
    assert "epubcfi" + Concat(p3) == "epubcfi(/6/16[chapter1]!/4,/174/2";
    var p4 := p3 + ["/", "1"];
    PrefixSnoc(p3, "/", "1");
    assert "epubcfi" + Concat(p4) == "epubcfi(/6/16[chapter1]!/4,/174/2/1";
    var p5 := p4 + [":", "0,"];
    PrefixSnoc(p4, ":", "0,");
    assert "epubcfi" + Concat(p5) == "epubcfi(/6/16[chapter1]!/4,/174/2/1:0,";
    var p6 := p5 + ["/", "180"];
    PrefixSnoc(p5, "/", "180");
    assert "epubcfi" + Concat(p6) == "epubcfi(/6/16[chapter1]!/4,/174/2/1:0,/180";
    var p7 := p6 + ["/", "1"];
    PrefixSnoc(p6, "/", "1");
    assert "epubcfi" + Concat(p7) == "epubcfi(/6/16[chapter1]!/4,/174/2/1:0,/180/1";
    var p8 := p7 + [":", "222"];
    PrefixSnoc(p7, ":", "222");
    assert "epubcfi" + Concat(p8) == "epubcfi(/6/16[chapter1]!/4,/174/2/1:0,/180/1:222";
  }

  /** Line 56 of the example list, as written there. */
  lemma Literal56()
    ensures Location(R56) == "epubcfi(/6/16[chapter1]!/4/232/1,:3,:1022)"
  {
    Chapter1Spelled();
    var p0 := Chapter1;
    var p1 := p0 + ["/", "4"];
    PrefixSnoc(p0, "/", "4");
    assert "epubcfi" + Concat(p1) == "epubcfi(/6/16[chapter1]!/4";
    var p2 := p1 + ["/", "232"];
    PrefixSnoc(p1, "/", "232");
    assert "epubcfi" + Concat(p2) == "epubcfi(/6/16[chapter1]!/4/232";
    var p3 := p2 + ["/", "1,"];
    PrefixSnoc(p2, "/", "1,");
    assert "epubcfi" + Concat(p3) == "epubcfi(/6/16[chapter1]!/4/232/1,";
    var p4 := p3 + [":", "3,"];
    PrefixSnoc(p3, ":", "3,");
    assert "epubcfi" + Concat(p4) == "epubcfi(/6/16[chapter1]!/4/232/1,:3,";
    var p5 := p4 + [":", "1022"];
    PrefixSnoc(p4, ":", "1022");
    assert "epubcfi" + Concat(p5) == "epubcfi(/6/16[chapter1]!/4/232/1,:3,:1022";
  }

  /** Line 57 of the example list, as written there. */
  lemma Literal57()
    ensures Location(R57) == "epubcfi(/6/18[chapter2]!/4,/46/1:0,/48/1:497)"
  {
    Chapter2Spelled();
    var p0 := Chapter2;
    var p1 := p0 + ["/", "4,"];
    PrefixSnoc(p0, "/", "4,");
    assert "epubcfi" + Concat(p1) == "epubcfi(/6/18[chapter2]!/4,";
    var p2 := p1 + ["/", "46"];
    PrefixSnoc(p1, "/", "46");
    assert "epubcfi" + Concat(p2) == "epubcfi(/6/18[chapter2]!/4,/46";
    var p3 := p2 + ["/", "1"];
    PrefixSnoc(p2, "/", "1");
    assert "epubcfi" + Concat(p3) == "epubcfi(/6/18[chapter2]!/4,/46/1";
    var p4 := p3 + [":", "0,"];
    PrefixSnoc(p3, ":", "0,");
    assert "epubcfi" + Concat(p4) == "epubcfi(/6/18[chapter2]!/4,/46/1:0,";
    var p5 := p4 + ["/", "48"];
    PrefixSnoc(p4, "/", "48");
    assert "epubcfi" + Concat(p5) == "epubcfi(/6/18[chapter2]!/4,/46/1:0,/48";
    var p6 := p5 + ["/", "1"];
    PrefixSnoc(p5, "/", "1");
    assert "epubcfi" + Concat(p6) == "epubcfi(/6/18[chapter2]!/4,/46/1:0,/48/1";
    var p7 := p6 + [":", "497"];
    PrefixSnoc(p6, ":", "497");
    assert "epubcfi" + Concat(p7) == "epubcfi(/6/18[chapter2]!/4,/46/1:0,/48/1:497";
  }

  /** Line 58 of the example list, as written there. */
  lemma Literal58()
    ensures Location(R58) == "epubcfi(/6/18[chapter2]!/4/138/1,:0,:431)"
  {
    Chapter2Spelled();
    var p0 := Chapter2;
    var p1 := p0 + ["/", "4"];
    PrefixSnoc(p0, "/", "4");
    assert "epubcfi" + Concat(p1) == "epubcfi(/6/18[chapter2]!/4";
    var p2 := p1 + ["/", "138"];
    PrefixSnoc(p1, "/", "138");
    assert "epubcfi" + Concat(p2) == "epubcfi(/6/18[chapter2]!/4/138";
    var p3 := p2 + ["/", "1,"];
    PrefixSnoc(p2, "/", "1,");
    assert "epubcfi" + Concat(p3) == "epubcfi(/6/18[chapter2]!/4/138/1,";
    var p4 := p3 + [":", "0,"];
    PrefixSnoc(p3, ":", "0,");
    assert "epubcfi" + Concat(p4) == "epubcfi(/6/18[chapter2]!/4/138/1,:0,";
    var p5 := p4 + [":", "431"];
    PrefixSnoc(p4, ":", "431");
    assert "epubcfi" + Concat(p5) == "epubcfi(/6/18[chapter2]!/4/138/1,:0,:431";
  }

  /** Line 59 of the example list, as written there. */
  lemma Literal59()
    ensures Location(R59) == "epubcfi(/6/18[chapter2]!/4/142/3,:554,:970)"
  {
    Chapter2Spelled();
    var p0 := Chapter2;
    var p1 := p0 + ["/", "4"];
    PrefixSnoc(p0, "/", "4");
    assert "epubcfi" + Concat(p1) == "epubcfi(/6/18[chapter2]!/4";
    var p2 := p1 + ["/", "142"];
    PrefixSnoc(p1, "/", "142");
    assert "epubcfi" + Concat(p2) == "epubcfi(/6/18[chapter2]!/4/142";
    var p3 := p2 + ["/", "3,"];
    PrefixSnoc(p2, "/", "3,");
    assert "epubcfi" + Concat(p3) == "epubcfi(/6/18[chapter2]!/4/142/3,";
    var p4 := p3 + [":", "554,"];
    PrefixSnoc(p3, ":", "554,");
    assert "epubcfi" + Concat(p4) == "epubcfi(/6/18[chapter2]!/4/142/3,:554,";
    var p5 := p4 + [":", "970"];
    PrefixSnoc(p4, ":", "970");
    assert "epubcfi" + Concat(p5) == "epubcfi(/6/18[chapter2]!/4/142/3,:554,:970";
  }

  /** Line 60 of the example list, as written there. */
  lemma Literal60()
    ensures Location(R60) == "epubcfi(/6/18[chapter2]!/4/142/3,:971,:1164)"
  {
    Chapter2Spelled();
    var p0 := Chapter2;
    var p1 := p0 + ["/", "4"];
    PrefixSnoc(p0, "/", "4");
    assert "epubcfi" + Concat(p1) == "epubcfi(/6/18[chapter2]!/4";
    var p2 := p1 + ["/", "142"];
    PrefixSnoc(p1, "/", "142");
    assert "epubcfi" + Concat(p2) == "epubcfi(/6/18[chapter2]!/4/142";
    var p3 := p2 + ["/", "3,"];
    PrefixSnoc(p2, "/", "3,");
    assert "epubcfi" + Concat(p3) == "epubcfi(/6/18[chapter2]!/4/142/3,";
    var p4 := p3 + [":", "971,"];
    PrefixSnoc(p3, ":", "971,");
    assert "epubcfi" + Concat(p4) == "epubcfi(/6/18[chapter2]!/4/142/3,:971,";
    var p5 := p4 + [":", "1164"];
    PrefixSnoc(p4, ":", "1164");
    assert "epubcfi" + Concat(p5) == "epubcfi(/6/18[chapter2]!/4/142/3,:971,:1164";
  }

  /** Line 61 of the example list, as written there. */
  lemma Literal61()
    ensures Location(R61) == "epubcfi(/6/20[chapter3]!/4/728/1,:74,:262)"
  {
    Chapter3Spelled();
    var p0 := Chapter3;
    var p1 := p0 + ["/", "4"];
    PrefixSnoc(p0, "/", "4");
    assert "epubcfi" + Concat(p1) == "epubcfi(/6/20[chapter3]!/4";
    var p2 := p1 + ["/", "728"];
    PrefixSnoc(p1, "/", "728");
    assert "epubcfi" + Concat(p2) == "epubcfi(/6/20[chapter3]!/4/728";
    var p3 := p2 + ["/", "1,"];
    PrefixSnoc(p2, "/", "1,");
    assert "epubcfi" + Concat(p3) == "epubcfi(/6/20[chapter3]!/4/728/1,";
    var p4 := p3 + [":", "74,"];
    PrefixSnoc(p3, ":", "74,");
    assert "epubcfi" + Concat(p4) == "epubcfi(/6/20[chapter3]!/4/728/1,:74,";
    var p5 := p4 + [":", "262"];
    PrefixSnoc(p4, ":", "262");
    assert "epubcfi" + Concat(p5) == "epubcfi(/6/20[chapter3]!/4/728/1,:74,:262";
  }

  /** Line 62 of the example list, as written there. */
  lemma Literal62()
    ensures Location(R62) == "epubcfi(/6/20[chapter3]!/4/728/1,:263,:372)"
  {
    Chapter3Spelled();
    var p0 := Chapter3;
    var p1 := p0 + ["/", "4"];
    PrefixSnoc(p0, "/", "4");
    assert "epubcfi" + Concat(p1) == "epubcfi(/6/20[chapter3]!/4";
    var p2 := p1 + ["/", "728"];
    PrefixSnoc(p1, "/", "728");
    assert "epubcfi" + Concat(p2) == "epubcfi(/6/20[chapter3]!/4/728";
    var p3 := p2 + ["/", "1,"];
    PrefixSnoc(p2, "/", "1,");
    assert "epubcfi" + Concat(p3) == "epubcfi(/6/20[chapter3]!/4/728/1,";
    var p4 := p3 + [":", "263,"];
    PrefixSnoc(p3, ":", "263,");
    assert "epubcfi" + Concat(p4) == "epubcfi(/6/20[chapter3]!/4/728/1,:263,";
    var p5 := p4 + [":", "372"];
    PrefixSnoc(p4, ":", "372");
    assert "epubcfi" + Concat(p5) == "epubcfi(/6/20[chapter3]!/4/728/1,:263,:372";
  }

  /** The assertion-bearing step of line 63, spelled out on its own. */
  lemma Line63Label()
    ensures "epubcfi(/6/20[chapter3]!/4,/742/3:71," + "/" + "744[ch3.6]" == "epubcfi(/6/20[chapter3]!/4,/742/3:71,/744[ch3.6]"
  {
  }

  /** Line 63 of the example list, as written there. */
  lemma Literal63()
    ensures Location(R63) == "epubcfi(/6/20[chapter3]!/4,/742/3:71,/744[ch3.6]/2/1:0)"
  {
    Chapter3Spelled();
    var p0 := Chapter3;
    var p1 := p0 + ["/", "4,"];
    PrefixSnoc(p0, "/", "4,");
    assert "epubcfi" + Concat(p1) == "epubcfi(/6/20[chapter3]!/4,";
    var p2 := p1 + ["/", "742"];
    PrefixSnoc(p1, "/", "742");
    assert "epubcfi" + Concat(p2) == "epubcfi(/6/20[chapter3]!/4,/742";
    var p3 := p2 + ["/", "3"];
    PrefixSnoc(p2, "/", "3");
    assert "epubcfi" + Concat(p3) == "epubcfi(/6/20[chapter3]!/4,/742/3";
    var p4 := p3 + [":", "71,"];
    PrefixSnoc(p3, ":", "71,");
    assert "epubcfi" + Concat(p4) == "epubcfi(/6/20[chapter3]!/4,/742/3:71,";
    var p5 := p4 + ["/", "744[ch3.6]"];
    PrefixSnoc(p4, "/", "744[ch3.6]");
    Line63Label();
    assert "epubcfi" + Concat(p5) == "epubcfi(/6/20[chapter3]!/4,/742/3:71,/744[ch3.6]";
    var p6 := p5 + ["/", "2"];
    PrefixSnoc(p5, "/", "2");
    assert "epubcfi" + Concat(p6) == "epubcfi(/6/20[chapter3]!/4,/742/3:71,/744[ch3.6]/2";
    var p7 := p6 + ["/", "1"];
    PrefixSnoc(p6, "/", "1");
    assert "epubcfi" + Concat(p7) == "epubcfi(/6/20[chapter3]!/4,/742/3:71,/744[ch3.6]/2/1";
    var p8 := p7 + [":", "0"];
    PrefixSnoc(p7, ":", "0");
    assert "epubcfi" + Concat(p8) == "epubcfi(/6/20[chapter3]!/4,/742/3:71,/744[ch3.6]/2/1:0";
  }


  /** The pieces join to the example list exactly as bookbits.py writes it. */
  lemma DemoLiterals()
    ensures DemoLocations == Cfis
  {
    Literal55(); Literal56(); Literal57(); Literal58(); Literal59();
    Literal60(); Literal61(); Literal62(); Literal63();
  }

  // ---------------------------------------------------------------------------
  // Their shape
  // ---------------------------------------------------------------------------

  /** The spine path and the three chapter paths are shaped. */
  lemma ChaptersShaped()
    ensures RawShaped(Chapter1) && RawShaped(Chapter2) && RawShaped(Chapter3)
  {
    RawSnoc(["("], "/", "6");
    RawSnoc(Spine, "/", "16[chapter1]!");
    RawSnoc(Spine, "/", "18[chapter2]!");
    RawSnoc(Spine, "/", "20[chapter3]!");
  }

  /** The pieces of line 55 are shaped. */
  lemma R55Shaped()
    ensures RawShaped(R55)
  {
    ChaptersShaped();
    var p1 := Chapter1 + ["/", "4,"]; RawSnoc(Chapter1, "/", "4,");
    var p2 := p1 + ["/", "174"]; RawSnoc(p1, "/", "174");
    var p3 := p2 + ["/", "2"]; RawSnoc(p2, "/", "2");
    var p4 := p3 + ["/", "1"]; RawSnoc(p3, "/", "1");
    var p5 := p4 + [":", "0,"]; RawSnoc(p4, ":", "0,");
    var p6 := p5 + ["/", "180"]; RawSnoc(p5, "/", "180");
    var p7 := p6 + ["/", "1"]; RawSnoc(p6, "/", "1");
    var p8 := p7 + [":", "222"]; RawSnoc(p7, ":", "222");
  }

  /** The pieces of line 56 are shaped. */
  lemma R56Shaped()
    ensures RawShaped(R56)
  {
    ChaptersShaped();
    var p1 := Chapter1 + ["/", "4"]; RawSnoc(Chapter1, "/", "4");
    var p2 := p1 + ["/", "232"]; RawSnoc(p1, "/", "232");
    var p3 := p2 + ["/", "1,"]; RawSnoc(p2, "/", "1,");
    var p4 := p3 + [":", "3,"]; RawSnoc(p3, ":", "3,");
    var p5 := p4 + [":", "1022"]; RawSnoc(p4, ":", "1022");
  }

  /** The pieces of line 57 are shaped. */
  lemma R57Shaped()
    ensures RawShaped(R57)
  {
    ChaptersShaped();
    var p1 := Chapter2 + ["/", "4,"]; RawSnoc(Chapter2, "/", "4,");
    var p2 := p1 + ["/", "46"]; RawSnoc(p1, "/", "46");
    var p3 := p2 + ["/", "1"]; RawSnoc(p2, "/", "1");
    var p4 := p3 + [":", "0,"]; RawSnoc(p3, ":", "0,");
    var p5 := p4 + ["/", "48"]; RawSnoc(p4, "/", "48");
    var p6 := p5 + ["/", "1"]; RawSnoc(p5, "/", "1");
    var p7 := p6 + [":", "497"]; RawSnoc(p6, ":", "497");
  }

  /** The pieces of line 58 are shaped. */
  lemma R58Shaped()
    ensures RawShaped(R58)
  {
    ChaptersShaped();
    var p1 := Chapter2 + ["/", "4"]; RawSnoc(Chapter2, "/", "4");
    var p2 := p1 + ["/", "138"]; RawSnoc(p1, "/", "138");
    var p3 := p2 + ["/", "1,"]; RawSnoc(p2, "/", "1,");
    var p4 := p3 + [":", "0,"]; RawSnoc(p3, ":", "0,");
    var p5 := p4 + [":", "431"]; RawSnoc(p4, ":", "431");
  }

  /** The pieces of line 59 are shaped. */
  lemma R59Shaped()
    ensures RawShaped(R59)
  {
    ChaptersShaped();
    var p1 := Chapter2 + ["/", "4"]; RawSnoc(Chapter2, "/", "4");
    var p2 := p1 + ["/", "142"]; RawSnoc(p1, "/", "142");
    var p3 := p2 + ["/", "3,"]; RawSnoc(p2, "/", "3,");
    var p4 := p3 + [":", "554,"]; RawSnoc(p3, ":", "554,");
    var p5 := p4 + [":", "970"]; RawSnoc(p4, ":", "970");
  }

  /** The pieces of line 60 are shaped. */
  lemma R60Shaped()
    ensures RawShaped(R60)
  {
    ChaptersShaped();
    var p1 := Chapter2 + ["/", "4"]; RawSnoc(Chapter2, "/", "4");
    var p2 := p1 + ["/", "142"]; RawSnoc(p1, "/", "142");
    var p3 := p2 + ["/", "3,"]; RawSnoc(p2, "/", "3,");
    var p4 := p3 + [":", "971,"]; RawSnoc(p3, ":", "971,");
    var p5 := p4 + [":", "1164"]; RawSnoc(p4, ":", "1164");
  }

  /** The pieces of line 61 are shaped. */
  lemma R61Shaped()
    ensures RawShaped(R61)
  {
    ChaptersShaped();
    var p1 := Chapter3 + ["/", "4"]; RawSnoc(Chapter3, "/", "4");
    var p2 := p1 + ["/", "728"]; RawSnoc(p1, "/", "728");
    var p3 := p2 + ["/", "1,"]; RawSnoc(p2, "/", "1,");
    var p4 := p3 + [":", "74,"]; RawSnoc(p3, ":", "74,");
    var p5 := p4 + [":", "262"]; RawSnoc(p4, ":", "262");
  }

  /** The pieces of line 62 are shaped. */
  lemma R62Shaped()
    ensures RawShaped(R62)
  {
    ChaptersShaped();
    var p1 := Chapter3 + ["/", "4"]; RawSnoc(Chapter3, "/", "4");
    var p2 := p1 + ["/", "728"]; RawSnoc(p1, "/", "728");
    var p3 := p2 + ["/", "1,"]; RawSnoc(p2, "/", "1,");
    var p4 := p3 + [":", "263,"]; RawSnoc(p3, ":", "263,");
    var p5 := p4 + [":", "372"]; RawSnoc(p4, ":", "372");
  }

  /** The pieces of line 63 are shaped. */
  lemma R63Shaped()
    ensures RawShaped(R63)
  {
    ChaptersShaped();
    var p1 := Chapter3 + ["/", "4,"]; RawSnoc(Chapter3, "/", "4,");
    var p2 := p1 + ["/", "742"]; RawSnoc(p1, "/", "742");
    var p3 := p2 + ["/", "3"]; RawSnoc(p2, "/", "3");
    var p4 := p3 + [":", "71,"]; RawSnoc(p3, ":", "71,");
    var p5 := p4 + ["/", "744[ch3.6]"]; RawSnoc(p4, "/", "744[ch3.6]");
    var p6 := p5 + ["/", "2"]; RawSnoc(p5, "/", "2");
    var p7 := p6 + ["/", "1"]; RawSnoc(p6, "/", "1");
    var p8 := p7 + [":", "0"]; RawSnoc(p7, ":", "0");
  }

  // ---------------------------------------------------------------------------
  // Neighbours in key order
  // ---------------------------------------------------------------------------

  /** Line 55 sorts before line 56: they first differ at `174` against `232`. */
  lemma Step55()
    ensures CompareKeys(PiecesKey(DemoPieces[0]), PiecesKey(DemoPieces[1])) == Less
  {
    assert DemoPieces[0] == R55 && DemoPieces[1] == R56;
    var a0 := Chapter1 + ["/", "4,"] + ["/", "174"];
    PrefixGrows(a0, a0, ["/", "2"]);
    var a1 := a0 + ["/", "2"];
    PrefixGrows(a0, a1, ["/", "1"]);
    var a2 := a1 + ["/", "1"];
    PrefixGrows(a0, a2, [":", "0,"]);
    var a3 := a2 + [":", "0,"];
    PrefixGrows(a0, a3, ["/", "180"]);
    var a4 := a3 + ["/", "180"];
    PrefixGrows(a0, a4, ["/", "1"]);
    var a5 := a4 + ["/", "1"];
    PrefixGrows(a0, a5, [":", "222"]);
    var a6 := a5 + [":", "222"];
    var b0 := Chapter1 + ["/", "4"] + ["/", "232"];
    PrefixGrows(b0, b0, ["/", "1,"]);
    var b1 := b0 + ["/", "1,"];
    PrefixGrows(b0, b1, [":", "3,"]);
    var b2 := b1 + [":", "3,"];
    PrefixGrows(b0, b2, [":", "1022"]);
    var b3 := b2 + [":", "1022"];
    CleanedSnoc(Chapter1, "/", "4,");
    CleanedSnoc(Chapter1, "/", "4");
    assert "4," == "4" + ",";
    TrailingComma("4");
    RemoveCommasNoComma("4");
    RemoveCommasNoComma("174");
    Digits3("174");
    RemoveCommasNoComma("232");
    Digits3("232");
    PiecesCompareAfter(R55, R56, Chapter1 + ["/", "4,"], Chapter1 + ["/", "4"], "/", "174", "232");
  }

  /** Line 56 sorts before line 57: they first differ at `16[chapter1]!` against `18[chapter2]!`. */
  lemma Step56()
    ensures CompareKeys(PiecesKey(DemoPieces[1]), PiecesKey(DemoPieces[2])) == Less
  {
    assert DemoPieces[1] == R56 && DemoPieces[2] == R57;
    var a0 := Chapter1;
    PrefixGrows(a0, a0, ["/", "4"]);
    var a1 := a0 + ["/", "4"];
    PrefixGrows(a0, a1, ["/", "232"]);
    var a2 := a1 + ["/", "232"];
    PrefixGrows(a0, a2, ["/", "1,"]);
    var a3 := a2 + ["/", "1,"];
    PrefixGrows(a0, a3, [":", "3,"]);
    var a4 := a3 + [":", "3,"];
    PrefixGrows(a0, a4, [":", "1022"]);
    var a5 := a4 + [":", "1022"];
    var b0 := Chapter2;
    PrefixGrows(b0, b0, ["/", "4,"]);
    var b1 := b0 + ["/", "4,"];
    PrefixGrows(b0, b1, ["/", "46"]);
    var b2 := b1 + ["/", "46"];
    PrefixGrows(b0, b2, ["/", "1"]);
    var b3 := b2 + ["/", "1"];
    PrefixGrows(b0, b3, [":", "0,"]);
    var b4 := b3 + [":", "0,"];
    PrefixGrows(b0, b4, ["/", "48"]);
    var b5 := b4 + ["/", "48"];
    PrefixGrows(b0, b5, ["/", "1"]);
    var b6 := b5 + ["/", "1"];
    PrefixGrows(b0, b6, [":", "497"]);
    var b7 := b6 + [":", "497"];
    ChapterLabels();
    PiecesCompareAfter(R56, R57, Spine, Spine, "/", "16[chapter1]!", "18[chapter2]!");
  }

  /** Line 57 sorts before line 58: they first differ at `46` against `138`. */
  lemma Step57()
    ensures CompareKeys(PiecesKey(DemoPieces[2]), PiecesKey(DemoPieces[3])) == Less
  {
    assert DemoPieces[2] == R57 && DemoPieces[3] == R58;
    var a0 := Chapter2 + ["/", "4,"] + ["/", "46"];
    PrefixGrows(a0, a0, ["/", "1"]);
    var a1 := a0 + ["/", "1"];
    PrefixGrows(a0, a1, [":", "0,"]);
    var a2 := a1 + [":", "0,"];
    PrefixGrows(a0, a2, ["/", "48"]);
    var a3 := a2 + ["/", "48"];
    PrefixGrows(a0, a3, ["/", "1"]);
    var a4 := a3 + ["/", "1"];
    PrefixGrows(a0, a4, [":", "497"]);
    var a5 := a4 + [":", "497"];
    var b0 := Chapter2 + ["/", "4"] + ["/", "138"];
    PrefixGrows(b0, b0, ["/", "1,"]);
    var b1 := b0 + ["/", "1,"];
    PrefixGrows(b0, b1, [":", "0,"]);
    var b2 := b1 + [":", "0,"];
    PrefixGrows(b0, b2, [":", "431"]);
    var b3 := b2 + [":", "431"];
    CleanedSnoc(Chapter2, "/", "4,");
    CleanedSnoc(Chapter2, "/", "4");
    assert "4," == "4" + ",";
    TrailingComma("4");
    RemoveCommasNoComma("4");
    RemoveCommasNoComma("46");
    Digits2("46");
    RemoveCommasNoComma("138");
    Digits3("138");
    PiecesCompareAfter(R57, R58, Chapter2 + ["/", "4,"], Chapter2 + ["/", "4"], "/", "46", "138");
  }

  /** Line 58 sorts before line 59: they first differ at `138` against `142`. */
  lemma Step58()
    ensures CompareKeys(PiecesKey(DemoPieces[3]), PiecesKey(DemoPieces[4])) == Less
  {
    assert DemoPieces[3] == R58 && DemoPieces[4] == R59;
    var a0 := Chapter2 + ["/", "4"] + ["/", "138"];
    PrefixGrows(a0, a0, ["/", "1,"]);
    var a1 := a0 + ["/", "1,"];
    PrefixGrows(a0, a1, [":", "0,"]);
    var a2 := a1 + [":", "0,"];
    PrefixGrows(a0, a2, [":", "431"]);
    var a3 := a2 + [":", "431"];
    var b0 := Chapter2 + ["/", "4"] + ["/", "142"];
    PrefixGrows(b0, b0, ["/", "3,"]);
    var b1 := b0 + ["/", "3,"];
    PrefixGrows(b0, b1, [":", "554,"]);
    var b2 := b1 + [":", "554,"];
    PrefixGrows(b0, b2, [":", "970"]);
    var b3 := b2 + [":", "970"];
    RemoveCommasNoComma("138");
    Digits3("138");
    RemoveCommasNoComma("142");
    Digits3("142");
    PiecesCompareAfter(R58, R59, Chapter2 + ["/", "4"], Chapter2 + ["/", "4"], "/", "138", "142");
  }

  /** Line 59 sorts before line 60: they first differ at `554,` against `971,`. */
  lemma Step59()
    ensures CompareKeys(PiecesKey(DemoPieces[4]), PiecesKey(DemoPieces[5])) == Less
  {
    assert DemoPieces[4] == R59 && DemoPieces[5] == R60;
    var a0 := Chapter2 + ["/", "4"] + ["/", "142"] + ["/", "3,"] + [":", "554,"];
    PrefixGrows(a0, a0, [":", "970"]);
    var a1 := a0 + [":", "970"];
    var b0 := Chapter2 + ["/", "4"] + ["/", "142"] + ["/", "3,"] + [":", "971,"];
    PrefixGrows(b0, b0, [":", "1164"]);
    var b1 := b0 + [":", "1164"];
    assert "554," == "554" + ",";
    TrailingComma("554");
    Digits3("554");
    assert "971," == "971" + ",";
    TrailingComma("971");
    Digits3("971");
    PiecesCompareAfter(R59, R60, Chapter2 + ["/", "4"] + ["/", "142"] + ["/", "3,"], Chapter2 + ["/", "4"] + ["/", "142"] + ["/", "3,"], ":", "554,", "971,");
  }

  /** Line 60 sorts before line 61: they first differ at `18[chapter2]!` against `20[chapter3]!`. */
  lemma Step60()
    ensures CompareKeys(PiecesKey(DemoPieces[5]), PiecesKey(DemoPieces[6])) == Less
  {
    assert DemoPieces[5] == R60 && DemoPieces[6] == R61;
    var a0 := Chapter2;
    PrefixGrows(a0, a0, ["/", "4"]);
    var a1 := a0 + ["/", "4"];
    PrefixGrows(a0, a1, ["/", "142"]);
    var a2 := a1 + ["/", "142"];
    PrefixGrows(a0, a2, ["/", "3,"]);
    var a3 := a2 + ["/", "3,"];
    PrefixGrows(a0, a3, [":", "971,"]);
    var a4 := a3 + [":", "971,"];
    PrefixGrows(a0, a4, [":", "1164"]);
    var a5 := a4 + [":", "1164"];
    var b0 := Chapter3;
    PrefixGrows(b0, b0, ["/", "4"]);
    var b1 := b0 + ["/", "4"];
    PrefixGrows(b0, b1, ["/", "728"]);
    var b2 := b1 + ["/", "728"];
    PrefixGrows(b0, b2, ["/", "1,"]);
    var b3 := b2 + ["/", "1,"];
    PrefixGrows(b0, b3, [":", "74,"]);
    var b4 := b3 + [":", "74,"];
    PrefixGrows(b0, b4, [":", "262"]);
    var b5 := b4 + [":", "262"];
    ChapterLabels();
    PiecesCompareAfter(R60, R61, Spine, Spine, "/", "18[chapter2]!", "20[chapter3]!");
  }

  /** Line 61 sorts before line 62: they first differ at `74,` against `263,`. */
  lemma Step61()
    ensures CompareKeys(PiecesKey(DemoPieces[6]), PiecesKey(DemoPieces[7])) == Less
  {
    assert DemoPieces[6] == R61 && DemoPieces[7] == R62;
    var a0 := Chapter3 + ["/", "4"] + ["/", "728"] + ["/", "1,"] + [":", "74,"];
    PrefixGrows(a0, a0, [":", "262"]);
    var a1 := a0 + [":", "262"];
    var b0 := Chapter3 + ["/", "4"] + ["/", "728"] + ["/", "1,"] + [":", "263,"];
    PrefixGrows(b0, b0, [":", "372"]);
    var b1 := b0 + [":", "372"];
    assert "74," == "74" + ",";
    TrailingComma("74");
    Digits2("74");
    assert "263," == "263" + ",";
    TrailingComma("263");
    Digits3("263");
    PiecesCompareAfter(R61, R62, Chapter3 + ["/", "4"] + ["/", "728"] + ["/", "1,"], Chapter3 + ["/", "4"] + ["/", "728"] + ["/", "1,"], ":", "74,", "263,");
  }

  /** Line 62 sorts before line 63: they first differ at `728` against `742`. */
  lemma Step62()
    ensures CompareKeys(PiecesKey(DemoPieces[7]), PiecesKey(DemoPieces[8])) == Less
  {
    assert DemoPieces[7] == R62 && DemoPieces[8] == R63;
    var a0 := Chapter3 + ["/", "4"] + ["/", "728"];
    PrefixGrows(a0, a0, ["/", "1,"]);
    var a1 := a0 + ["/", "1,"];
    PrefixGrows(a0, a1, [":", "263,"]);
    var a2 := a1 + [":", "263,"];
    PrefixGrows(a0, a2, [":", "372"]);
    var a3 := a2 + [":", "372"];
    var b0 := Chapter3 + ["/", "4,"] + ["/", "742"];
    PrefixGrows(b0, b0, ["/", "3"]);
    var b1 := b0 + ["/", "3"];
    PrefixGrows(b0, b1, [":", "71,"]);
    var b2 := b1 + [":", "71,"];
    PrefixGrows(b0, b2, ["/", "744[ch3.6]"]);
    var b3 := b2 + ["/", "744[ch3.6]"];
    PrefixGrows(b0, b3, ["/", "2"]);
    var b4 := b3 + ["/", "2"];
    PrefixGrows(b0, b4, ["/", "1"]);
    var b5 := b4 + ["/", "1"];
    PrefixGrows(b0, b5, [":", "0"]);
    var b6 := b5 + [":", "0"];
    CleanedSnoc(Chapter3, "/", "4");
    CleanedSnoc(Chapter3, "/", "4,");
    RemoveCommasNoComma("4");
    assert "4," == "4" + ",";
    TrailingComma("4");
    RemoveCommasNoComma("728");
    Digits3("728");
    RemoveCommasNoComma("742");
    Digits3("742");
    PiecesCompareAfter(R62, R63, Chapter3 + ["/", "4"], Chapter3 + ["/", "4,"], "/", "728", "742");
  }

  // ---------------------------------------------------------------------------
  // The example list is in key order
  // ---------------------------------------------------------------------------

  /** Every piece list of the example is shaped. */
  lemma DemoShaped()
    ensures forall k :: 0 <= k < |DemoPieces| ==> RawShaped(DemoPieces[k])
  {
    forall k | 0 <= k < |DemoPieces| ensures RawShaped(DemoPieces[k]) {
      if k == 0 { R55Shaped(); }
      else if k == 1 { R56Shaped(); }
      else if k == 2 { R57Shaped(); }
      else if k == 3 { R58Shaped(); }
      else if k == 4 { R59Shaped(); }
      else if k == 5 { R60Shaped(); }
      else if k == 6 { R61Shaped(); }
      else if k == 7 { R62Shaped(); }
      else { R63Shaped(); }
    }
  }

  /** Each location of the example has a key below the next one's. */
  lemma DemoNeighbours()
    ensures forall k :: 0 <= k < |DemoPieces| - 1 ==> CompareKeys(PiecesKey(DemoPieces[k]), PiecesKey(DemoPieces[k + 1])) == Less
  {
    forall k | 0 <= k < |DemoPieces| - 1 ensures CompareKeys(PiecesKey(DemoPieces[k]), PiecesKey(DemoPieces[k + 1])) == Less {
      if k == 0 { Step55(); }
      else if k == 1 { Step56(); }
      else if k == 2 { Step57(); }
      else if k == 3 { Step58(); }
      else if k == 4 { Step59(); }
      else if k == 5 { Step60(); }
      else if k == 6 { Step61(); }
      else { Step62(); }
    }
  }

  /** The example list is in key order. */
  lemma DemoInKeyOrder()
    ensures SortedByKey(Cfis)
  {
    DemoLiterals();
    DemoShaped();
    DemoNeighbours();
    SortedFromPieces(DemoPieces);
  }

  /** Sorting the example list raises no `TypeError` and gives the list back unchanged. */
  lemma DemoSortUnchanged()
    ensures PairwiseComparable(Cfis)
    ensures SortEpubcfi(Cfis) == Cfis
  {
    DemoInKeyOrder();
    SortSortedUnchanged(Cfis);
  }
}

/**
 * Worked examples of the location order: concrete locations, their keys, and
 * how `sort_epubcfi` orders them.
 */
module CfiVectors {
  import opened CfiParse
  import opened CfiOrder
  import opened CfiSort

  /** A key read off from a comma-free body and the pieces it splits into. */
  lemma KeyFrom(cfi: string, clean: string, pieces: seq<string>, key: seq<Tok>)
    requires RemoveCommas(CfiBody(cfi)) == clean
    requires SplitShaped(pieces) && Concat(pieces) == clean
    requires |key| == |pieces|
    requires forall i :: 0 <= i < |pieces| ==> ToTok(pieces[i]) == key[i]
    ensures Key(cfi) == key
  {
    SplitUnique(clean, pieces);
  }

  /** A text piece and a separator in front of a shaped split keep it shaped. */
  lemma ShapedCons(t: string, sep: string, rest: seq<string>)
    requires TextPiece(t) && SepPiece(sep) && SplitShaped(rest)
    ensures SplitShaped([t, sep] + rest)
  {
    var p := [t, sep] + rest;
    assert p[2..] == rest;
    forall i | 0 <= i < |p| && i % 2 == 1 ensures SepPiece(p[i]) {
      if i > 1 { assert p[i] == rest[i - 2]; }
    }
    forall i | 0 <= i < |p| && i % 2 == 0 ensures TextPiece(p[i]) {
      if i > 0 { assert p[i] == rest[i - 2]; }
    }
  }

  /** Concatenating a text piece and a separator in front. */
  lemma ConcatPair(t: string, sep: string, rest: seq<string>)
    ensures Concat([t, sep] + rest) == t + sep + Concat(rest)
  {
    var p := [t, sep] + rest;
    assert p[1..] == [sep] + rest;
    assert p[1..][1..] == rest;
  }

  /** A single text piece is a shaped split of itself. */
  lemma ShapedOne(t: string)
    requires TextPiece(t)
    ensures SplitShaped([t])
  {
  }

  /** The separators and the one-digit step numbers of the examples as tokens. */
  lemma SmallTokens()
    ensures ToTok("(") == S("(") && ToTok("/") == S("/") && ToTok(":") == S(":")
    ensures ToTok("0") == I(0) && ToTok("2") == I(2) && ToTok("4") == I(4)
    ensures ToTok("5") == I(5) && ToTok("6") == I(6)
  {
  }

  /** `"10"` is the number ten. */
  lemma TenToken()
    ensures ToTok("10") == I(10)
  {
    assert "10"[..1] == "1";
    assert "1"[..0] == "";
    assert IsDigits("10") && DigitsValue("10") == 10;
  }

  // ---------------------------------------------------------------------------
  // Keys of the example locations
  // ---------------------------------------------------------------------------

  /** The comma-free body of `"epubcfi(/6/4/2)"`. */
  lemma PointClean()
    ensures RemoveCommas(CfiBody("epubcfi(/6/4/2)")) == "(/6/4/2"
  {
    assert CfiBody("epubcfi(/6/4/2)") == "(/6/4/2";
    RemoveCommasNoComma("(/6/4/2");
  }

  /** How `"(/6/4/2"` splits: the shape. */
  lemma PointPieces()
    ensures SplitShaped(["(", "/", "6", "/", "4", "/", "2"])
  {
    var r6 := ["2"];
    ShapedOne("2");
    var r4 := ["4", "/"] + r6;
    ShapedCons("4", "/", r6);
    var r2 := ["6", "/"] + r4;
    ShapedCons("6", "/", r4);
    var r0 := ["(", "/"] + r2;
    ShapedCons("(", "/", r2);
    assert r0 == ["(", "/", "6", "/", "4", "/", "2"];
  }

  /** The pieces join back into `"(/6/4/2"`. */
  lemma PointConcat()
    ensures Concat(["(", "/", "6", "/", "4", "/", "2"]) == "(/6/4/2"
  {
    var r6 := ["2"];
    assert Concat(r6) == "2";
    var r4 := ["4", "/"] + r6;
    ConcatPair("4", "/", r6);
    var r2 := ["6", "/"] + r4;
    ConcatPair("6", "/", r4);
    var r0 := ["(", "/"] + r2;
    ConcatPair("(", "/", r2);
    assert r0 == ["(", "/", "6", "/", "4", "/", "2"];
  }

  /** `"epubcfi(/6/4/2)"`: a path of steps, each step number an `int`. */
  lemma KeyOfPoint()
    ensures Key("epubcfi(/6/4/2)") == [S("("), S("/"), I(6), S("/"), I(4), S("/"), I(2)]
  {
    PointClean();
    PointPieces();
    PointConcat();
    SmallTokens();
    KeyFrom("epubcfi(/6/4/2)", "(/6/4/2", ["(", "/", "6", "/", "4", "/", "2"],
      [S("("), S("/"), I(6), S("/"), I(4), S("/"), I(2)]);
  }

  /** The comma-free body of `"epubcfi(/6/4/10)"`. */
  lemma LaterPointClean()
    ensures RemoveCommas(CfiBody("epubcfi(/6/4/10)")) == "(/6/4/10"
  {
    assert CfiBody("epubcfi(/6/4/10)") == "(/6/4/10";
    RemoveCommasNoComma("(/6/4/10");
  }

  /** How `"(/6/4/10"` splits: the shape. */
  lemma LaterPointPieces()
    ensures SplitShaped(["(", "/", "6", "/", "4", "/", "10"])
  {
    var r6 := ["10"];
    ShapedOne("10");
    var r4 := ["4", "/"] + r6;
    ShapedCons("4", "/", r6);
    var r2 := ["6", "/"] + r4;
    ShapedCons("6", "/", r4);
    var r0 := ["(", "/"] + r2;
    ShapedCons("(", "/", r2);
    assert r0 == ["(", "/", "6", "/", "4", "/", "10"];
  }

  /** The pieces join back into `"(/6/4/10"`. */
  lemma LaterPointConcat()
    ensures Concat(["(", "/", "6", "/", "4", "/", "10"]) == "(/6/4/10"
  {
    var r6 := ["10"];
    assert Concat(r6) == "10";
    var r4 := ["4", "/"] + r6;
    ConcatPair("4", "/", r6);
    var r2 := ["6", "/"] + r4;
    ConcatPair("6", "/", r4);
    var r0 := ["(", "/"] + r2;
    ConcatPair("(", "/", r2);
    assert r0 == ["(", "/", "6", "/", "4", "/", "10"];
  }

  /** `"epubcfi(/6/4/10)"`. */
  lemma KeyOfLaterPoint()
    ensures Key("epubcfi(/6/4/10)") == [S("("), S("/"), I(6), S("/"), I(4), S("/"), I(10)]
  {
    LaterPointClean();
    LaterPointPieces();
    LaterPointConcat();
    SmallTokens();
    TenToken();
    KeyFrom("epubcfi(/6/4/10)", "(/6/4/10", ["(", "/", "6", "/", "4", "/", "10"],
      [S("("), S("/"), I(6), S("/"), I(4), S("/"), I(10)]);
  }

  /** The comma-free body of `"epubcfi(/6/4[a]/2)"`. */
  lemma AssertedClean()
    ensures RemoveCommas(CfiBody("epubcfi(/6/4[a]/2)")) == "(/6/4[a]/2"
  {
    assert CfiBody("epubcfi(/6/4[a]/2)") == "(/6/4[a]/2";
    RemoveCommasNoComma("(/6/4[a]/2");
  }

  /** How `"(/6/4[a]/2"` splits: the shape. */
  lemma AssertedPieces()
    ensures SplitShaped(["(", "/", "6", "/", "4[a]", "/", "2"])
  {
    var r6 := ["2"];
    ShapedOne("2");
    var r4 := ["4[a]", "/"] + r6;
    ShapedCons("4[a]", "/", r6);
    var r2 := ["6", "/"] + r4;
    ShapedCons("6", "/", r4);
    var r0 := ["(", "/"] + r2;
    ShapedCons("(", "/", r2);
    assert r0 == ["(", "/", "6", "/", "4[a]", "/", "2"];
  }

  /** The pieces join back into `"(/6/4[a]/2"`. */
  lemma AssertedConcat()
    ensures Concat(["(", "/", "6", "/", "4[a]", "/", "2"]) == "(/6/4[a]/2"
  {
    var r6 := ["2"];
    assert Concat(r6) == "2";
    var r4 := ["4[a]", "/"] + r6;
    ConcatPair("4[a]", "/", r6);
    var r2 := ["6", "/"] + r4;
    ConcatPair("6", "/", r4);
    var r0 := ["(", "/"] + r2;
    ConcatPair("(", "/", r2);
    assert r0 == ["(", "/", "6", "/", "4[a]", "/", "2"];
  }

  /** A step carrying an id assertion, `4[a]`, stays a string. */
  lemma KeyOfAssertedStep()
    ensures Key("epubcfi(/6/4[a]/2)") == [S("("), S("/"), I(6), S("/"), S("4[a]"), S("/"), I(2)]
  {
    AssertedClean();
    AssertedPieces();
    AssertedConcat();
    SmallTokens();
    assert ToTok("4[a]") == S("4[a]");
    KeyFrom("epubcfi(/6/4[a]/2)", "(/6/4[a]/2", ["(", "/", "6", "/", "4[a]", "/", "2"],
      [S("("), S("/"), I(6), S("/"), S("4[a]"), S("/"), I(2)]);
  }

  // ---------------------------------------------------------------------------
  // How the examples compare and sort
  // ---------------------------------------------------------------------------

  /** The comparison of two locations is the comparison of their keys. */
  lemma KeyCmpOfKeys(a: string, b: string, ka: seq<Tok>, kb: seq<Tok>)
    requires Key(a) == ka && Key(b) == kb
    ensures KeyCmp(a, b) == CompareKeys(ka, kb)
  {
  }

  /** The keys of steps 2 and 10 first differ at the last step, where 2 < 10. */
  lemma NumericKeys()
    ensures CompareKeys([S("("), S("/"), I(6), S("/"), I(4), S("/"), I(2)],
                        [S("("), S("/"), I(6), S("/"), I(4), S("/"), I(10)]) == Less
  {
  }

  /** Step numbers compare as numbers: step 2 comes before step 10, though the string `"2"` is above `"10"`. */
  lemma NumericSteps()
    ensures KeyCmp("epubcfi(/6/4/2)", "epubcfi(/6/4/10)") == Less
    ensures CompareStr("2", "10") == Greater
  {
    KeyOfPoint();
    KeyOfLaterPoint();
    NumericKeys();
    KeyCmpOfKeys("epubcfi(/6/4/2)", "epubcfi(/6/4/10)",
      [S("("), S("/"), I(6), S("/"), I(4), S("/"), I(2)],
      [S("("), S("/"), I(6), S("/"), I(4), S("/"), I(10)]);
  }

  /** The keys differ first at step `4[a]` against step 4: a string against an `int`. */
  lemma AssertedKeys()
    ensures CompareKeys([S("("), S("/"), I(6), S("/"), S("4[a]"), S("/"), I(2)],
                        [S("("), S("/"), I(6), S("/"), I(4), S("/"), I(2)]) == Incomparable
  {
  }

  /** A step number against an id-asserted step is the `TypeError` case. */
  lemma AssertedStepIncomparable()
    ensures KeyCmp("epubcfi(/6/4[a]/2)", "epubcfi(/6/4/2)") == Incomparable
  {
    KeyOfAssertedStep();
    KeyOfPoint();
    AssertedKeys();
    KeyCmpOfKeys("epubcfi(/6/4[a]/2)", "epubcfi(/6/4/2)",
      [S("("), S("/"), I(6), S("/"), S("4[a]"), S("/"), I(2)],
      [S("("), S("/"), I(6), S("/"), I(4), S("/"), I(2)]);
  }

  /** Sorting two points puts step 2 first. */
  lemma SortTwoPoints()
    ensures PairwiseComparable(["epubcfi(/6/4/10)", "epubcfi(/6/4/2)"])
    ensures SortEpubcfi(["epubcfi(/6/4/10)", "epubcfi(/6/4/2)"]) == ["epubcfi(/6/4/2)", "epubcfi(/6/4/10)"]
  {
    var x, y := "epubcfi(/6/4/2)", "epubcfi(/6/4/10)";
    NumericSteps();
    PairComparable(x, y);
    SortPair(x, y);
  }

  /** Two locations in strict key order are comparable both ways and with themselves. */
  lemma PairComparable(x: string, y: string)
    requires KeyCmp(x, y) == Less
    ensures PairwiseComparable([y, x])
  {
    CompareKeysFlip(Key(x), Key(y));
    CompareKeysEqual(Key(x), Key(x));
    CompareKeysEqual(Key(y), Key(y));
    var s := [y, x];
    forall i, j | 0 <= i < 2 && 0 <= j < 2 ensures KeyCmp(s[i], s[j]) != Incomparable {
      var a, b := if i == 0 then y else x, if j == 0 then y else x;
      assert s[i] == a && s[j] == b;
      assert KeyCmp(a, b) != Incomparable;
    }
  }

  /** Two pairs in strict key order are sorted that way whichever comes first. */
  lemma SortKeyedSwap(p: Keyed, q: Keyed)
    requires CompareKeys(p.key, q.key) == Less
    ensures Comparable([q, p]) && SortKeyed([q, p]) == [p, q]
  {
    CompareKeysFlip(p.key, q.key);
    CompareKeysEqual(p.key, p.key);
    CompareKeysEqual(q.key, q.key);
    var s := [q, p];
    forall i, j | 0 <= i < 2 && 0 <= j < 2 ensures CompareKeys(s[i].key, s[j].key) != Incomparable {
      var a, b := if i == 0 then q else p, if j == 0 then q else p;
      assert s[i] == a && s[j] == b;
    }
    assert Comparable([p]);
    assert SortKeyed([p]) == [p];
    assert s[1..] == [p];
    assert !Le(q, p);
  }

  /** Two locations in strict key order are sorted that way whichever comes first. */
  lemma SortPair(x: string, y: string)
    requires KeyCmp(x, y) == Less && PairwiseComparable([y, x])
    ensures SortEpubcfi([y, x]) == [x, y]
  {
    var dx, dy := Keyed(Key(x), x), Keyed(Key(y), y);
    DecoratePair(y, x);
    SortKeyedSwap(dx, dy);
    UndecoratePair(dx, dy);
  }

  /** Decorating a two-element list. */
  lemma DecoratePair(a: string, b: string)
    ensures Decorate([a, b]) == [Keyed(Key(a), a), Keyed(Key(b), b)]
  {
  }

  /** Undecorating a two-element list. */
  lemma UndecoratePair(p: Keyed, q: Keyed)
    ensures Undecorate([p, q]) == [p.cfi, q.cfi]
  {
  }
}

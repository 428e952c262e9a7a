/**
 * Python's ordering of the sort keys `cfi_to_tuple` builds: tuples compared
 * element by element, `int` against `int` by value, `str` against `str` by
 * code point, and `int` against `str` raising `TypeError`.
 */
module CfiOrder {
  import opened CfiParse

  /** The outcome of comparing two keys; `Incomparable` is Python's `TypeError`. */
  datatype Cmp = Less | Equal | Greater | Incomparable

  /** The outcome with the operands swapped. */
  function Flip(c: Cmp): Cmp
  {
    match c
    case Less => Greater
    case Equal => Equal
    case Greater => Less
    case Incomparable => Incomparable
  }

  /** Python's `str` ordering: code point by code point, a strict prefix first. */
  function CompareStr(a: string, b: string): Cmp
  {
    if a == [] && b == [] then Equal
    else if a == [] then Less
    else if b == [] then Greater
    else if a[0] < b[0] then Less
    else if a[0] > b[0] then Greater
    else CompareStr(a[1..], b[1..])
  }

  /** Strings always compare, `Equal` exactly when they are the same, and the order flips with the operands. */
  lemma {:induction false} CompareStrFacts(a: string, b: string)
    ensures CompareStr(a, b) != Incomparable
    ensures CompareStr(a, b) == Equal <==> a == b
    ensures CompareStr(b, a) == Flip(CompareStr(a, b))
  {
    if a != [] && b != [] && a[0] == b[0] {
      CompareStrFacts(a[1..], b[1..]);
      assert a == [a[0]] + a[1..] && b == [b[0]] + b[1..];
    }
  }

  /** The string order is transitive. */
  lemma {:induction false} CompareStrTrans(a: string, b: string, c: string)
    requires CompareStr(a, b) == Less && CompareStr(b, c) == Less
    ensures CompareStr(a, c) == Less
  {
    if a != [] && a[0] == b[0] && b[0] == c[0] {
      CompareStrTrans(a[1..], b[1..], c[1..]);
    }
  }

  /**
   * Python's `x < y` between two elements that are not equal: numbers by
   * value, strings by `CompareStr`, a number against a string a `TypeError`.
   */
  function CompareTok(x: Tok, y: Tok): Cmp
  {
    match (x, y)
    case (I(m), I(n)) => if m < n then Less else if m > n then Greater else Equal
    case (S(u), S(v)) => CompareStr(u, v)
    case _ => Incomparable
  }

  /** Element comparison is `Equal` exactly on equal elements, flips with its operands, and is transitive. */
  lemma CompareTokFacts(x: Tok, y: Tok)
    ensures CompareTok(x, y) == Equal <==> x == y
    ensures CompareTok(y, x) == Flip(CompareTok(x, y))
    ensures CompareTok(x, y) == Incomparable <==> x.I? != y.I?
  {
    if x.S? && y.S? {
      CompareStrFacts(x.s, y.s);
    }
  }

  /** Element comparison is transitive. */
  lemma CompareTokTrans(x: Tok, y: Tok, z: Tok)
    requires CompareTok(x, y) == Less && CompareTok(y, z) == Less
    ensures CompareTok(x, z) == Less
  {
    if x.S? && y.S? && z.S? {
      CompareStrTrans(x.s, y.s, z.s);
    }
  }

  /**
   * Python's tuple ordering: skip the equal leading elements; the first
   * element where the tuples differ decides, and when there is none the
   * shorter tuple comes first.
   */
  function CompareKeys(a: seq<Tok>, b: seq<Tok>): Cmp
  {
    if a == [] then (if b == [] then Equal else Less)
    else if b == [] then Greater
    else if a[0] == b[0] then CompareKeys(a[1..], b[1..])
    else CompareTok(a[0], b[0])
  }

  /** Keys compare `Equal` exactly when they are the same tuple. */
  lemma {:induction false} CompareKeysEqual(a: seq<Tok>, b: seq<Tok>)
    ensures CompareKeys(a, b) == Equal <==> a == b
  {
    if a != [] && b != [] {
      if a[0] == b[0] {
        CompareKeysEqual(a[1..], b[1..]);
        assert a == [a[0]] + a[1..] && b == [b[0]] + b[1..];
      } else {
        CompareTokFacts(a[0], b[0]);
      }
    }
  }

  /** Swapping the operands flips the outcome; a `TypeError` stays a `TypeError`. */
  lemma {:induction false} CompareKeysFlip(a: seq<Tok>, b: seq<Tok>)
    ensures CompareKeys(b, a) == Flip(CompareKeys(a, b))
  {
    if a != [] && b != [] {
      if a[0] == b[0] {
        CompareKeysFlip(a[1..], b[1..]);
      } else {
        CompareTokFacts(a[0], b[0]);
      }
    }
  }

  /** `Less` is transitive: two successful comparisons never lead to a `TypeError` between the ends. */
  lemma {:induction false} CompareKeysTrans(a: seq<Tok>, b: seq<Tok>, c: seq<Tok>)
    requires CompareKeys(a, b) == Less && CompareKeys(b, c) == Less
    ensures CompareKeys(a, c) == Less
  {
    if a != [] {
      assert b != [] && c != [];
      if a[0] == b[0] && b[0] == c[0] {
        CompareKeysTrans(a[1..], b[1..], c[1..]);
      } else if a[0] == b[0] {
        assert CompareKeys(a, c) == CompareTok(b[0], c[0]);
      } else if b[0] == c[0] {
        assert CompareKeys(a, c) == CompareTok(a[0], b[0]);
      } else {
        CompareTokFacts(a[0], c[0]);
        CompareTokFacts(a[0], b[0]);
        CompareTokTrans(a[0], b[0], c[0]);
      }
    } else {
      assert b != [];
    }
  }

  /** The first index where two keys differ decides their comparison. */
  lemma {:induction false} CompareKeysFirstDifference(a: seq<Tok>, b: seq<Tok>, i: nat)
    requires i < |a| && i < |b| && a[..i] == b[..i] && a[i] != b[i]
    ensures CompareKeys(a, b) == CompareTok(a[i], b[i])
  {
    if i > 0 {
      assert a[0] == a[..i][0] == b[..i][0] == b[0];
      assert a[1..][..i - 1] == a[1..i] == b[1..i] == b[1..][..i - 1];
      CompareKeysFirstDifference(a[1..], b[1..], i - 1);
    }
  }

  /** A strict prefix sorts first. */
  lemma {:induction false} CompareKeysPrefix(a: seq<Tok>, b: seq<Tok>)
    requires |a| < |b| && a == b[..|a|]
    ensures CompareKeys(a, b) == Less
  {
    if a != [] {
      assert a[0] == b[0];
      assert a[1..] == b[1..][..|a| - 1];
      CompareKeysPrefix(a[1..], b[1..]);
    }
  }

  /** At a separator position, where the keys first differ, `/` sorts before `:`. */
  lemma SlashBeforeColon(a: seq<Tok>, b: seq<Tok>, i: nat)
    requires i < |a| && i < |b| && a[..i] == b[..i]
    requires a[i] == S("/") && b[i] == S(":")
    ensures CompareKeys(a, b) == Less
  {
    CompareKeysFirstDifference(a, b, i);
  }

  /** A number against a string at the first difference is Python's `TypeError`. */
  lemma NumberAgainstString(a: seq<Tok>, b: seq<Tok>, i: nat)
    requires i < |a| && i < |b| && a[..i] == b[..i]
    requires a[i].I? && b[i].S?
    ensures CompareKeys(a, b) == Incomparable
    ensures CompareKeys(b, a) == Incomparable
  {
    CompareKeysFirstDifference(a, b, i);
    CompareKeysFlip(a, b);
  }
}

/**
 * The data reshaping inside `export_annotations` (bookbits.py): format check
 * and file name, newline normalisation, the re-join of annotations to the
 * sorted locations, the rows handed to the CSV writer, and the Markdown text
 * accumulated for the clipboard. The database query is replaced by its
 * result, a sequence of rows.
 */
module Annotations {
  import opened Wrappers
  import opened CfiParse
  import opened CfiOrder
  import opened CfiSort

  /**
   * One row of the annotation query: the selected text (never NULL, since
   * the query keeps only rows whose text is not `""`), the note (NULL allowed)
   * and the location string.
   */
  datatype Row = Row(highlight: string, note: Option<string>, location: string)

  /** A `(highlight, note, location)` triple after newline normalisation. */
  datatype Annotation = Annotation(highlight: string, note: string, location: string)

  /** `SUPPORTED_FORMATS`. */
  const SupportedFormats: seq<string> := ["csv", "md"]

  /** The `ValueError` raised for a format outside `SUPPORTED_FORMATS`. */
  datatype ExportError = UnsupportedFormat

  /** What the export hands on: the rows for the CSV writer, or the last text put on the clipboard (if any). */
  datatype Output = CsvRows(rows: seq<Annotation>) | Clipboard(copied: Option<string>)

  /** The result of an export: the returned file name, the re-joined annotations, and the output. */
  datatype Export = Export(filename: string, annotations: seq<Annotation>, output: Output)

  // ---------------------------------------------------------------------------
  // Format check and file name
  // ---------------------------------------------------------------------------

  /** `str.lower()` on one character, for ASCII letters. */
  function LowerChar(c: char): char
  {
    if 'A' <= c <= 'Z' then (c as int + 32) as char else c
  }

  /** `str.lower()`, character by character. */
  function Lower(s: string): string
  {
    seq(|s|, i requires 0 <= i < |s| => LowerChar(s[i]))
  }

  /** `format.lower() in SUPPORTED_FORMATS`. */
  predicate IsSupported(format: string)
  {
    Lower(format) in SupportedFormats
  }

  /** `f"highlights.{format.lower()}"`. */
  function Filename(format: string): string
  {
    "highlights." + Lower(format)
  }

  /** A lower-cased character is a given lower-case letter exactly when the original is that letter in either case. */
  lemma LowerCharIs(c: char, lower: char)
    requires 'a' <= lower <= 'z'
    ensures LowerChar(c) == lower <==> c == lower || c as int == lower as int - 32
  {
  }

  /**
   * The formats accepted are exactly `csv` and `md` in any mix of upper and
   * lower case; the file name is then `highlights.csv` or `highlights.md`.
   */
  lemma FormatAccepted(format: string)
    ensures IsSupported(format) <==>
      (|format| == 3 && format[0] in "cC" && format[1] in "sS" && format[2] in "vV") ||
      (|format| == 2 && format[0] in "mM" && format[1] in "dD")
    ensures IsSupported(format) ==> Filename(format) == "highlights.csv" || Filename(format) == "highlights.md"
  {
    var l := Lower(format);
    if |format| == 3 {
      LowerCharIs(format[0], 'c');
      LowerCharIs(format[1], 's');
      LowerCharIs(format[2], 'v');
      if l == "csv" {
        assert l[0] == 'c' && l[1] == 's' && l[2] == 'v';
      }
      if format[0] in "cC" && format[1] in "sS" && format[2] in "vV" {
        assert l == "csv";
      }
    } else if |format| == 2 {
      LowerCharIs(format[0], 'm');
      LowerCharIs(format[1], 'd');
      if l == "md" {
        assert l[0] == 'm' && l[1] == 'd';
      }
      if format[0] in "mM" && format[1] in "dD" {
        assert l == "md";
      }
    }
  }

  // ---------------------------------------------------------------------------
  // Newline normalisation
  // ---------------------------------------------------------------------------

  /** `s.replace("\n", " ")`. */
  function ReplaceNewlines(s: string): (r: string)
    ensures |r| == |s|
    ensures forall i :: 0 <= i < |s| ==> r[i] == (if s[i] == '\n' then ' ' else s[i])
    ensures '\n' !in r
  {
    if s == [] then ""
    else [if s[0] == '\n' then ' ' else s[0]] + ReplaceNewlines(s[1..])
  }

  /** Text without newlines is left alone, so normalising twice is normalising once. */
  lemma ReplaceNewlinesNone(s: string)
    requires '\n' !in s
    ensures ReplaceNewlines(s) == s
  {
    assert forall i :: 0 <= i < |s| ==> s[i] != '\n';
  }

  /** `note.replace("\n", " ") if note else ""`: a NULL or empty note becomes `""`. */
  function NoteText(note: Option<string>): string
  {
    match note
    case None => ""
    case Some(n) => if n == "" then "" else ReplaceNewlines(n)
  }

  /** The `"Highlight"` list of `annotations_dict`. */
  function Highlights(rows: seq<Row>): seq<string>
  {
    seq(|rows|, i requires 0 <= i < |rows| => ReplaceNewlines(rows[i].highlight))
  }

  /** The `"Notes"` list of `annotations_dict`. */
  function Notes(rows: seq<Row>): seq<string>
  {
    seq(|rows|, i requires 0 <= i < |rows| => NoteText(rows[i].note))
  }

  /** The `"Locations"` list of `annotations_dict`. */
  function Locations(rows: seq<Row>): seq<string>
  {
    seq(|rows|, i requires 0 <= i < |rows| => rows[i].location)
  }

  /** `zip(Highlight, Notes, Locations)`: the normalised triples, in input order. */
  function Normalize(rows: seq<Row>): seq<Annotation>
  {
    var h, n, l := Highlights(rows), Notes(rows), Locations(rows);
    seq(|rows|, i requires 0 <= i < |rows| => Annotation(h[i], n[i], l[i]))
  }

  /**
   * Normalisation keeps one triple per row and the location unchanged; the
   * highlight and a non-empty note are the row's with their newlines
   * replaced, so neither holds a newline afterwards, and the note is empty
   * exactly when the row's note was NULL or empty.
   */
  lemma NormalizeFacts(rows: seq<Row>)
    ensures |Normalize(rows)| == |rows|
    ensures forall i :: 0 <= i < |rows| ==>
      && Normalize(rows)[i].location == rows[i].location
      && Normalize(rows)[i].highlight == ReplaceNewlines(rows[i].highlight)
      && (rows[i].note.Some? && rows[i].note.value != "" ==> Normalize(rows)[i].note == ReplaceNewlines(rows[i].note.value))
      && |Normalize(rows)[i].highlight| == |rows[i].highlight|
      && '\n' !in Normalize(rows)[i].highlight
      && '\n' !in Normalize(rows)[i].note
      && (Normalize(rows)[i].note == "" <==> rows[i].note == None || rows[i].note == Some(""))
  {
  }

  /** The location of each triple. */
  function LocationsOf(anns: seq<Annotation>): seq<string>
  {
    seq(|anns|, i requires 0 <= i < |anns| => anns[i].location)
  }

  // ---------------------------------------------------------------------------
  // The re-join `[... for location in sorted_locations for ... if loc == location]`
  // ---------------------------------------------------------------------------

  /** The triples whose location is `loc`, in input order (the inner loop and its `if`). */
  function Matching(anns: seq<Annotation>, loc: string): seq<Annotation>
  {
    if anns == [] then []
    else (if anns[0].location == loc then [anns[0]] else []) + Matching(anns[1..], loc)
  }

  /** The nested comprehension: for each sorted location, every triple at that location. */
  function Rejoin(sortedLocs: seq<string>, anns: seq<Annotation>): seq<Annotation>
  {
    if sortedLocs == [] then []
    else Matching(anns, sortedLocs[0]) + Rejoin(sortedLocs[1..], anns)
  }

  /** `k` copies of `s`, one after another. */
  function Repeat<T>(s: seq<T>, k: nat): seq<T>
  {
    if k == 0 then [] else s + Repeat(s, k - 1)
  }

  /** `k` copies of `s` are `k * |s|` long. */
  lemma {:induction false} RepeatLength<T>(s: seq<T>, k: nat)
    ensures |Repeat(s, k)| == k * |s|
  {
    if k > 0 {
      RepeatLength(s, k - 1);
      assert k * |s| == |s| + (k - 1) * |s|;
    }
  }

  /** Filtering distributes over concatenation. */
  lemma {:induction false} MatchingAppend(a: seq<Annotation>, b: seq<Annotation>, loc: string)
    ensures Matching(a + b, loc) == Matching(a, loc) + Matching(b, loc)
  {
    if a == [] {
      assert a + b == b;
    } else {
      var head := if a[0].location == loc then [a[0]] else [];
      assert (a + b)[0] == a[0];
      assert (a + b)[1..] == a[1..] + b;
      calc {
        Matching(a + b, loc);
        head + Matching(a[1..] + b, loc);
        { MatchingAppend(a[1..], b, loc); }
        head + (Matching(a[1..], loc) + Matching(b, loc));
        (head + Matching(a[1..], loc)) + Matching(b, loc);
        Matching(a, loc) + Matching(b, loc);
      }
    }
  }

  /** Filtering the triples of one location again keeps all or none of them. */
  lemma {:induction false} MatchingTwice(anns: seq<Annotation>, loc: string, other: string)
    ensures Matching(Matching(anns, loc), other) == if loc == other then Matching(anns, loc) else []
  {
    if anns != [] {
      MatchingTwice(anns[1..], loc, other);
      var head := if anns[0].location == loc then [anns[0]] else [];
      assert Matching(anns, loc) == head + Matching(anns[1..], loc);
      MatchingAppend(head, Matching(anns[1..], loc), other);
      assert Matching(head, other) == if loc == other then head else [] by {
        if head != [] {
          assert head[1..] == [];
          assert Matching(head, other) == (if loc == other then head else []) + Matching([], other);
        }
      }
    }
  }

  /** The triples at one location are as many as the occurrences of that location. */
  lemma {:induction false} MatchingCount(anns: seq<Annotation>, loc: string)
    ensures |Matching(anns, loc)| == multiset(LocationsOf(anns))[loc]
  {
    if anns != [] {
      MatchingCount(anns[1..], loc);
      assert LocationsOf(anns) == [anns[0].location] + LocationsOf(anns[1..]);
    }
  }

  /**
   * For each location, the re-joined output holds the triples at that
   * location, in input order, once for every time the location occurs in the
   * sorted list.
   */
  lemma {:induction false} RejoinPerLocation(sortedLocs: seq<string>, anns: seq<Annotation>, loc: string)
    ensures Matching(Rejoin(sortedLocs, anns), loc) == Repeat(Matching(anns, loc), multiset(sortedLocs)[loc])
  {
    if sortedLocs != [] {
      var s0, rest := sortedLocs[0], sortedLocs[1..];
      var each := Matching(anns, loc);
      RejoinPerLocation(rest, anns, loc);
      MatchingAppend(Matching(anns, s0), Rejoin(rest, anns), loc);
      MatchingTwice(anns, s0, loc);
      assert sortedLocs == [s0] + rest;
      assert multiset(sortedLocs) == multiset{s0} + multiset(rest);
      var k := multiset(rest)[loc];
      if s0 == loc {
        assert multiset(sortedLocs)[loc] == k + 1;
        assert Repeat(each, k + 1) == each + Repeat(each, k);
      } else {
        assert multiset(sortedLocs)[loc] == k;
      }
    }
  }

  /**
   * One more occurrence of the location adds one more round of `m` copies;
   * kept apart so that the product is reasoned about outside the multiset
   * context of its caller.
   */
  lemma MulStep(total: nat, k: nat, m: nat, b: bool)
    requires total == (if b then 1 else 0) + k
    ensures total * m == (if b then m else 0) + k * m
  {
  }

  /** Each triple occurs in the output as often as in the input, times the occurrences of its location in the sorted list. */
  lemma {:induction false} RejoinMultiset(sortedLocs: seq<string>, anns: seq<Annotation>, x: Annotation)
    ensures multiset(Rejoin(sortedLocs, anns))[x] == multiset(sortedLocs)[x.location] * multiset(anns)[x]
  {
    if sortedLocs != [] {
      var s0 := sortedLocs[0];
      var rest := sortedLocs[1..];
      RejoinMultiset(rest, anns, x);
      MatchingMultiset(anns, s0, x);
      assert sortedLocs == [s0] + rest;
      var k, m := multiset(rest)[x.location], multiset(anns)[x];
      var total := multiset(sortedLocs)[x.location];
      assert total == (if s0 == x.location then 1 else 0) + k by {
        assert multiset(sortedLocs) == multiset{s0} + multiset(rest);
      }
      var out := Rejoin(sortedLocs, anns);
      assert out == Matching(anns, s0) + Rejoin(rest, anns);
      assert multiset(out)[x] == multiset(Matching(anns, s0))[x] + multiset(Rejoin(rest, anns))[x] by {
        assert multiset(out) == multiset(Matching(anns, s0)) + multiset(Rejoin(rest, anns));
      }
      MulStep(total, k, m, s0 == x.location);
      assert multiset(Matching(anns, s0))[x] == if s0 == x.location then m else 0;
      assert multiset(Rejoin(rest, anns))[x] == k * m;
    }
  }

  /** The triples at `loc` hold each triple at `loc` as often as the input and no other triple. */
  lemma {:induction false} MatchingMultiset(anns: seq<Annotation>, loc: string, x: Annotation)
    ensures multiset(Matching(anns, loc))[x] == if x.location == loc then multiset(anns)[x] else 0
  {
    if anns != [] {
      MatchingMultiset(anns[1..], loc, x);
      assert anns == [anns[0]] + anns[1..];
    }
  }

  /** Every triple at `loc` has location `loc`. */
  lemma {:induction false} MatchingLocation(anns: seq<Annotation>, loc: string)
    ensures forall y :: y in Matching(anns, loc) ==> y.location == loc && y in anns
  {
    if anns != [] {
      MatchingLocation(anns[1..], loc);
      assert anns == [anns[0]] + anns[1..];
    }
  }

  /** Non-decreasing by the key of the location. */
  predicate SortedByLocation(anns: seq<Annotation>)
  {
    forall i, j :: 0 <= i < j < |anns| ==> KeyLe(anns[i].location, anns[j].location)
  }

  /** Triples all at one location, followed by sorted triples at locations not below it, are sorted. */
  lemma SortedBlockThenRest(m: seq<Annotation>, t: seq<Annotation>, loc: string)
    requires forall y :: y in m ==> y.location == loc
    requires KeyLe(loc, loc)
    requires SortedByLocation(t)
    requires forall y :: y in t ==> KeyLe(loc, y.location)
    ensures SortedByLocation(m + t)
  {
    var out := m + t;
    forall i, j | 0 <= i < j < |out| ensures KeyLe(out[i].location, out[j].location) {
      if j < |m| {
        assert out[i] in m && out[j] in m;
      } else if i >= |m| {
        assert out[i] == t[i - |m|] && out[j] == t[j - |m|];
      } else {
        assert out[i] in m && out[j] == t[j - |m|] && out[j] in t;
      }
    }
  }

  /** The output visits the locations in the order of the sorted list, and holds only input triples. */
  lemma {:induction false} RejoinSorted(sortedLocs: seq<string>, anns: seq<Annotation>)
    requires SortedByKey(sortedLocs)
    ensures SortedByLocation(Rejoin(sortedLocs, anns))
    ensures forall y :: y in Rejoin(sortedLocs, anns) ==> y in anns && y.location in sortedLocs
  {
    if sortedLocs != [] {
      var s0, rest := sortedLocs[0], sortedLocs[1..];
      forall i, j | 0 <= i < j < |rest| ensures KeyLe(rest[i], rest[j]) {
        assert rest[i] == sortedLocs[i + 1] && rest[j] == sortedLocs[j + 1];
      }
      forall z | z in rest ensures KeyLe(s0, z) {
        var k :| 0 <= k < |rest| && rest[k] == z;
        assert sortedLocs[k + 1] == z;
      }
      RejoinSorted(rest, anns);
      MatchingLocation(anns, s0);
      CompareKeysEqual(Key(s0), Key(s0));
      SortedBlockThenRest(Matching(anns, s0), Rejoin(rest, anns), s0);
    }
  }

  /** The export's output is in location order and holds only the fetched triples. */
  lemma ExportSorted(rows: seq<Row>)
    requires PairwiseComparable(Locations(rows))
    ensures SortedByLocation(Rejoin(SortEpubcfi(Locations(rows)), Normalize(rows)))
    ensures forall y :: y in Rejoin(SortEpubcfi(Locations(rows)), Normalize(rows)) ==> y in Normalize(rows)
  {
    SortEpubcfiSorted(Locations(rows));
    RejoinSorted(SortEpubcfi(Locations(rows)), Normalize(rows));
  }

  /** `k * k`. */
  function Squared(k: nat): nat
  {
    k * k
  }

  /**
   * A location occurring `k` times among the fetched rows contributes its `k`
   * triples, in input order, `k` times over: `k * k` triples in all.
   */
  lemma ExportRepeats(rows: seq<Row>, loc: string)
    requires PairwiseComparable(Locations(rows))
    ensures Matching(Rejoin(SortEpubcfi(Locations(rows)), Normalize(rows)), loc)
         == Repeat(Matching(Normalize(rows), loc), multiset(Locations(rows))[loc])
    ensures |Matching(Rejoin(SortEpubcfi(Locations(rows)), Normalize(rows)), loc)|
         == Squared(multiset(Locations(rows))[loc])
  {
    var sorted := SortEpubcfi(Locations(rows));
    SortEpubcfiSorted(Locations(rows));
    var anns := Normalize(rows);
    var k := multiset(Locations(rows))[loc];
    assert LocationsOf(anns) == Locations(rows);
    var out := Matching(Rejoin(sorted, anns), loc);
    var each := Matching(anns, loc);
    RejoinPerLocation(sorted, anns, loc);
    assert out == Repeat(each, k);
    MatchingCount(anns, loc);
    assert |each| == k;
    RepeatLength(each, k);
    assert |out| == k * |each|;
  }

  /** When every triple's location occurs once in the sorted list, the re-join is a permutation of the triples. */
  lemma RejoinOnce(sortedLocs: seq<string>, anns: seq<Annotation>)
    requires forall x :: x in anns ==> multiset(sortedLocs)[x.location] == 1
    ensures multiset(Rejoin(sortedLocs, anns)) == multiset(anns)
  {
    forall x ensures multiset(Rejoin(sortedLocs, anns))[x] == multiset(anns)[x] {
      RejoinMultiset(sortedLocs, anns, x);
      var k, m := multiset(sortedLocs)[x.location], multiset(anns)[x];
      if x in anns {
        assert k == 1;
        assert k * m == m;
      } else {
        assert m == 0;
        assert k * m == 0;
      }
    }
  }

  /** With no location repeated among the fetched rows, the export re-join is a permutation of the triples. */
  lemma RejoinDistinct(rows: seq<Row>)
    requires PairwiseComparable(Locations(rows))
    requires forall i, j :: 0 <= i < j < |rows| ==> rows[i].location != rows[j].location
    ensures multiset(Rejoin(SortEpubcfi(Locations(rows)), Normalize(rows))) == multiset(Normalize(rows))
  {
    var anns := Normalize(rows);
    var locs := Locations(rows);
    var sorted := SortEpubcfi(locs);
    SortEpubcfiSorted(locs);
    assert forall p, q :: 0 <= p < q < |locs| ==> locs[p] != locs[q];
    forall x | x in anns ensures multiset(sorted)[x.location] == 1 {
      var i :| 0 <= i < |anns| && anns[i] == x;
      DistinctCount(locs, i);
    }
    RejoinOnce(sorted, anns);
  }

  /** A location occurring at index `i` of a list without repeats occurs once. */
  lemma {:induction false} DistinctCount(locs: seq<string>, i: nat)
    requires i < |locs|
    requires forall p, q :: 0 <= p < q < |locs| ==> locs[p] != locs[q]
    ensures multiset(locs)[locs[i]] == 1
  {
    var rest := locs[1..];
    assert locs == [locs[0]] + rest;
    forall p, q | 0 <= p < q < |rest| ensures rest[p] != rest[q] {
      assert rest[p] == locs[p + 1] && rest[q] == locs[q + 1];
    }
    if i == 0 {
      assert locs[0] !in rest by {
        forall q | 0 <= q < |rest| ensures rest[q] != locs[0] {
          assert rest[q] == locs[q + 1];
        }
      }
    } else {
      DistinctCount(rest, i - 1);
      assert rest[i - 1] == locs[i];
    }
  }

  // ---------------------------------------------------------------------------
  // Output length
  // ---------------------------------------------------------------------------

  /** The sum, over the entries of `s` (repeats included), of how often each occurs in `counts`. */
  function CountSum(s: seq<string>, counts: multiset<string>): nat
  {
    if s == [] then 0 else counts[s[0]] + CountSum(s[1..], counts)
  }

  /** The re-join emits, for each sorted location, as many triples as carry that location. */
  lemma {:induction false} RejoinLength(sortedLocs: seq<string>, anns: seq<Annotation>)
    ensures |Rejoin(sortedLocs, anns)| == CountSum(sortedLocs, multiset(LocationsOf(anns)))
  {
    if sortedLocs != [] {
      MatchingCount(anns, sortedLocs[0]);
      RejoinLength(sortedLocs[1..], anns);
    }
  }

  /** Dropping the entry at index `j` takes its count out of the sum. */
  lemma {:induction false} CountSumRemove(s: seq<string>, j: nat, counts: multiset<string>)
    requires j < |s|
    ensures CountSum(s, counts) == counts[s[j]] + CountSum(s[..j] + s[j + 1..], counts)
  {
    if j > 0 {
      var t := s[1..];
      CountSumRemove(t, j - 1, counts);
      assert t[..j - 1] + t[j..] == (s[..j] + s[j + 1..])[1..];
      assert (s[..j] + s[j + 1..])[0] == s[0];
    } else {
      assert s[..j] + s[j + 1..] == s[1..];
    }
  }

  /** The sum does not depend on the order of the entries. */
  lemma {:induction false} CountSumPermutation(s: seq<string>, t: seq<string>, counts: multiset<string>)
    requires multiset(s) == multiset(t)
    ensures CountSum(s, counts) == CountSum(t, counts)
    decreases |s|
  {
    if s == [] {
      assert |t| == |multiset(t)| == 0;
    } else {
      assert s[0] in multiset(t);
      var j :| 0 <= j < |t| && t[j] == s[0];
      var t' := t[..j] + t[j + 1..];
      assert t == t[..j] + [t[j]] + t[j + 1..];
      assert multiset(t) == multiset(t[..j]) + multiset{s[0]} + multiset(t[j + 1..]);
      assert multiset(t') == multiset(t[..j]) + multiset(t[j + 1..]);
      assert s == [s[0]] + s[1..];
      assert multiset(s) == multiset{s[0]} + multiset(s[1..]);
      forall x ensures multiset(s[1..])[x] == multiset(t')[x] {
        assert multiset(s)[x] == multiset(t)[x];
      }
      assert multiset(s[1..]) == multiset(t');
      CountSumPermutation(s[1..], t', counts);
      CountSumRemove(t, j, counts);
    }
  }

  /**
   * The export holds, for every fetched row, as many triples as there are
   * rows with its location: a location fetched `k` times adds `k * k`.
   */
  lemma ExportLength(rows: seq<Row>)
    requires PairwiseComparable(Locations(rows))
    ensures |Rejoin(SortEpubcfi(Locations(rows)), Normalize(rows))|
         == CountSum(Locations(rows), multiset(Locations(rows)))
  {
    var locs := Locations(rows);
    SortEpubcfiSorted(locs);
    assert LocationsOf(Normalize(rows)) == locs;
    RejoinLength(SortEpubcfi(locs), Normalize(rows));
    CountSumPermutation(SortEpubcfi(locs), locs, multiset(locs));
  }
}

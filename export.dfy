/**
 * The two outputs of `export_annotations` (bookbits.py): the rows handed to
 * the CSV writer, and the Markdown text accumulated for the clipboard; then
 * the export as a whole, from the format and the fetched rows to the file
 * name it returns and the output it produces.
 */
module Exporting {
  import opened Wrappers
  import opened CfiSort
  import opened Annotations

  // ---------------------------------------------------------------------------
  // CSV rows
  // ---------------------------------------------------------------------------

  /** The header of the CSV file, in column order. */
  const CsvFields: seq<string> := ["Highlight", "Notes", "Locations"]

  /** One dictionary handed to `writerows`: both texts normalised once more. */
  function CsvRow(a: Annotation): Annotation
  {
    Annotation(ReplaceNewlines(a.highlight), if a.note != "" then ReplaceNewlines(a.note) else "", a.location)
  }

  /** The dictionaries handed to `writerows`, one per re-joined triple. */
  function CsvRowsOf(anns: seq<Annotation>): seq<Annotation>
  {
    seq(|anns|, i requires 0 <= i < |anns| => CsvRow(anns[i]))
  }

  /** The dictionary handed to `writerows` for one triple, keyed by column name. */
  function CsvDict(a: Annotation): map<string, string>
  {
    var r := CsvRow(a);
    map["Highlight" := r.highlight, "Notes" := r.note, "Locations" := r.location]
  }

  /**
   * The values a `DictWriter` writes for one dictionary: one per column, in
   * the order of its field names, with `""` (its default `restval`) for a
   * missing key.
   */
  function CsvRecord(d: map<string, string>, fields: seq<string>): (r: seq<string>)
    ensures |r| == |fields|
    ensures forall i :: 0 <= i < |fields| ==> r[i] == (if fields[i] in d then d[fields[i]] else "")
  {
    seq(|fields|, i requires 0 <= i < |fields| => if fields[i] in d then d[fields[i]] else "")
  }

  /**
   * Each dictionary has exactly the header's keys, so the writer raises no
   * error for extra keys, and its record holds highlight, note and location
   * in that order.
   */
  lemma CsvRecordOrder(a: Annotation)
    ensures CsvDict(a).Keys == set f | f in CsvFields
    ensures CsvRecord(CsvDict(a), CsvFields) == [CsvRow(a).highlight, CsvRow(a).note, a.location]
  {
    var d := CsvDict(a);
    var rec := CsvRecord(d, CsvFields);
    assert CsvFields[0] == "Highlight" && CsvFields[1] == "Notes" && CsvFields[2] == "Locations";
    assert rec[0] == d["Highlight"] && rec[1] == d["Notes"] && rec[2] == d["Locations"];
  }

  /** A triple that holds no newline passes through the CSV normalisation unchanged. */
  lemma CsvRowUnchanged(a: Annotation)
    requires '\n' !in a.highlight && '\n' !in a.note
    ensures CsvRow(a) == a
  {
    ReplaceNewlinesNone(a.highlight);
    ReplaceNewlinesNone(a.note);
  }

  /**
   * The second normalisation before `writerows` changes nothing: the rows
   * written are exactly the re-joined triples, in sorted order.
   */
  lemma CsvRowsAreExport(rows: seq<Row>)
    requires PairwiseComparable(Locations(rows))
    ensures CsvRowsOf(Rejoin(SortEpubcfi(Locations(rows)), Normalize(rows)))
         == Rejoin(SortEpubcfi(Locations(rows)), Normalize(rows))
  {
    var anns := Rejoin(SortEpubcfi(Locations(rows)), Normalize(rows));
    ExportSorted(rows);
    NormalizeFacts(rows);
    forall i | 0 <= i < |anns| ensures CsvRow(anns[i]) == anns[i] {
      assert anns[i] in Normalize(rows);
      var j :| 0 <= j < |Normalize(rows)| && Normalize(rows)[j] == anns[i];
      CsvRowUnchanged(anns[i]);
    }
  }

  // ---------------------------------------------------------------------------
  // Lines
  // ---------------------------------------------------------------------------

  /** `s.split("\n")`: the pieces between newlines, at least one, possibly empty. */
  function SplitLines(s: string): (r: seq<string>)
    ensures |r| >= 1
    ensures forall i :: 0 <= i < |r| ==> '\n' !in r[i]
    ensures JoinLines(r) == s
  {
    if s == [] then [""]
    else
      var rest := SplitLines(s[1..]);
      assert s == [s[0]] + s[1..];
      if s[0] == '\n' then
        NewlineConsLines(rest);
        [""] + rest
      else
        CharConsLines(s[0], rest);
        [[s[0]] + rest[0]] + rest[1..]
  }

  /** A newline in front starts a new, empty first line. */
  lemma NewlineConsLines(rest: seq<string>)
    requires |rest| >= 1 && forall i :: 0 <= i < |rest| ==> '\n' !in rest[i]
    ensures forall i :: 0 <= i < |[""] + rest| ==> '\n' !in ([""] + rest)[i]
    ensures JoinLines([""] + rest) == "\n" + JoinLines(rest)
  {
    JoinLinesCons("", rest);
    forall i | 0 <= i < |[""] + rest| ensures '\n' !in ([""] + rest)[i] {
      if i > 0 { assert ([""] + rest)[i] == rest[i - 1]; }
    }
  }

  /** Any other character in front joins the first line. */
  lemma CharConsLines(c: char, rest: seq<string>)
    requires c != '\n'
    requires |rest| >= 1 && forall i :: 0 <= i < |rest| ==> '\n' !in rest[i]
    ensures forall i :: 0 <= i < |rest| ==> '\n' !in ([[c] + rest[0]] + rest[1..])[i]
    ensures JoinLines([[c] + rest[0]] + rest[1..]) == [c] + JoinLines(rest)
  {
    CharConsNoNewline(c, rest);
    CharConsJoin(c, rest[0], rest[1..]);
    assert rest == [rest[0]] + rest[1..];
  }

  /** The first line grows by a character that is not a newline, the others stay. */
  lemma CharConsNoNewline(c: char, rest: seq<string>)
    requires c != '\n'
    requires |rest| >= 1 && forall i :: 0 <= i < |rest| ==> '\n' !in rest[i]
    ensures forall i :: 0 <= i < |rest| ==> '\n' !in ([[c] + rest[0]] + rest[1..])[i]
  {
    var r := [[c] + rest[0]] + rest[1..];
    forall i | 0 <= i < |rest| ensures '\n' !in r[i] {
      if i == 0 {
        var first := rest[0];
        assert '\n' !in first;
        assert r[0] == [c] + first;
      } else {
        assert r[i] == rest[i];
      }
    }
  }

  /** Joining after the first line grew by one character in front. */
  lemma CharConsJoin(c: char, first: string, more: seq<string>)
    ensures JoinLines([[c] + first] + more) == [c] + JoinLines([first] + more)
  {
    if more != [] {
      JoinLinesCons(first, more);
      JoinLinesCons([c] + first, more);
      assert ([c] + first) + "\n" + JoinLines(more) == [c] + (first + "\n" + JoinLines(more));
    }
  }

  /** `"\n".join(lines)`. */
  function JoinLines(lines: seq<string>): string
    requires |lines| >= 1
  {
    if |lines| == 1 then lines[0] else lines[0] + "\n" + JoinLines(lines[1..])
  }

  /** Joining a line in front of at least one more. */
  lemma JoinLinesCons(line: string, rest: seq<string>)
    requires |rest| >= 1
    ensures JoinLines([line] + rest) == line + "\n" + JoinLines(rest)
  {
    assert ([line] + rest)[1..] == rest;
  }

  /** The only newline-free pieces that join to `s` are `SplitLines(s)`. */
  lemma {:induction false} SplitLinesUnique(s: string, lines: seq<string>)
    requires |lines| >= 1
    requires forall i :: 0 <= i < |lines| ==> '\n' !in lines[i]
    requires JoinLines(lines) == s
    ensures SplitLines(s) == lines
    decreases |s|
  {
    var l0 := lines[0];
    if |lines| == 1 {
      NoNewlineSplit(l0);
    } else {
      var rest := lines[1..];
      assert forall i :: 0 <= i < |rest| ==> '\n' !in rest[i] by {
        forall i | 0 <= i < |rest| ensures '\n' !in rest[i] { assert rest[i] == lines[i + 1]; }
      }
      JoinLinesCons(l0, rest);
      assert lines == [l0] + rest;
      if l0 == "" {
        assert s == "\n" + JoinLines(rest);
        assert s[1..] == JoinLines(rest);
        SplitLinesUnique(s[1..], rest);
      } else {
        var tail := [l0[1..]] + rest;
        JoinLinesCons(l0[1..], rest);
        assert s == [l0[0]] + (l0[1..] + "\n" + JoinLines(rest));
        assert s[1..] == JoinLines(tail);
        assert '\n' !in l0[1..] by {
          forall c | c in l0[1..] ensures c != '\n' { assert c in l0; }
        }
        assert l0[0] in l0;
        assert forall i :: 0 <= i < |tail| ==> '\n' !in tail[i] by {
          forall i | 0 <= i < |tail| ensures '\n' !in tail[i] {
            if i > 0 { assert tail[i] == rest[i - 1]; }
          }
        }
        SplitLinesUnique(s[1..], tail);
        assert [l0[0]] + l0[1..] == l0;
      }
    }
  }

  /** Text without a newline splits into itself alone. */
  lemma {:induction false} NoNewlineSplit(s: string)
    requires '\n' !in s
    ensures SplitLines(s) == [s]
    decreases |s|
  {
    if s != [] {
      assert '\n' !in s[1..] by {
        forall c | c in s[1..] ensures c != '\n' { assert c in s; }
      }
      NoNewlineSplit(s[1..]);
      assert [s[0]] + s[1..] == s;
    }
  }

  // ---------------------------------------------------------------------------
  // Markdown
  // ---------------------------------------------------------------------------

  /** `[f"> {line}" for line in lines]`. */
  function Quoted(lines: seq<string>): seq<string>
  {
    seq(|lines|, i requires 0 <= i < |lines| => "> " + lines[i])
  }

  /** The Markdown appended for one triple: the quoted highlight, a blank line, and the note with a blank line when there is one. */
  function Entry(a: Annotation): string
  {
    JoinLines(Quoted(SplitLines(a.highlight))) + "\n\n" + (if a.note != "" then a.note + "\n\n" else "")
  }

  /** The Markdown text after the loop has handled every triple of `anns`. */
  function Markdown(anns: seq<Annotation>): string
  {
    if anns == [] then "" else Markdown(anns[..|anns| - 1]) + Entry(anns[|anns| - 1])
  }

  /** A highlight on one line becomes one quoted line. */
  lemma EntryShape(a: Annotation)
    requires '\n' !in a.highlight
    ensures Entry(a) == "> " + a.highlight + "\n\n" + (if a.note != "" then a.note + "\n\n" else "")
  {
    NoNewlineSplit(a.highlight);
    assert Quoted([a.highlight]) == ["> " + a.highlight];
  }

  /** Markdown for two runs of triples is the Markdown of each, one after the other. */
  lemma {:induction false} MarkdownAppend(a: seq<Annotation>, b: seq<Annotation>)
    ensures Markdown(a + b) == Markdown(a) + Markdown(b)
    decreases |b|
  {
    if b == [] {
      assert a + b == a;
    } else {
      var b' := b[..|b| - 1];
      var last := b[|b| - 1];
      assert a + b == (a + b') + [last];
      assert b == b' + [last];
      MarkdownAppend(a, b');
      MarkdownSnoc(a + b', last);
      MarkdownSnoc(b', last);
    }
  }

  /** One more triple appends its entry. */
  lemma MarkdownSnoc(anns: seq<Annotation>, a: Annotation)
    ensures Markdown(anns + [a]) == Markdown(anns) + Entry(a)
  {
    assert (anns + [a])[..|anns|] == anns;
  }

  /**
   * The entry of a normalised triple gives back its highlight and note: two
   * triples without newlines render alike exactly when their highlights and
   * notes agree.
   */
  lemma EntryInjective(a: Annotation, b: Annotation)
    requires '\n' !in a.highlight && '\n' !in a.note
    requires '\n' !in b.highlight && '\n' !in b.note
    ensures Entry(a) == Entry(b) <==> a.highlight == b.highlight && a.note == b.note
  {
    EntryShape(a);
    EntryShape(b);
    if Entry(a) == Entry(b) {
      var e := Entry(a);
      var ha, hb := a.highlight, b.highlight;
      var ta := if a.note != "" then a.note + "\n\n" else "";
      var tb := if b.note != "" then b.note + "\n\n" else "";
      if |ha| < |hb| {
        NewlineAt(ha, hb, ta, tb);
      } else if |hb| < |ha| {
        NewlineAt(hb, ha, tb, ta);
      } else {
        EntryParts(ha, ta);
        EntryParts(hb, tb);
        if a.note != "" && b.note != "" {
          assert a.note == ta[..|ta| - 2];
          assert b.note == tb[..|tb| - 2];
        }
      }
    }
  }

  /** Where the highlight and the note part sit in an entry. */
  lemma EntryParts(h: string, t: string)
    ensures ("> " + h + "\n\n" + t)[2..2 + |h|] == h
    ensures ("> " + h + "\n\n" + t)[4 + |h|..] == t
  {
  }

  /** The first newline of an entry follows its highlight, so a longer highlight cannot render like a shorter one. */
  lemma NewlineAt(h: string, g: string, n: string, m: string)
    requires '\n' !in g && |h| < |g|
    ensures "> " + h + "\n\n" + n != "> " + g + "\n\n" + m
  {
    var e := "> " + h + "\n\n" + n;
    var f := "> " + g + "\n\n" + m;
    assert e[2 + |h|] == '\n';
    assert f[2 + |h|] == g[|h|];
    assert g[|h|] in g;
  }

  /**
   * The loop that builds the Markdown text: it appends the entry of each
   * triple in turn and puts the text so far on the clipboard after each one.
   * `copied` is the last text put on the clipboard, `None` when the loop never
   * ran.
   */
  method RenderMarkdown(anns: seq<Annotation>) returns (md: string, copied: Option<string>)
    ensures md == Markdown(anns)
    ensures copied == if anns == [] then None else Some(Markdown(anns))
  {
    md := "";
    copied := None;
    for k := 0 to |anns|
      invariant md == Markdown(anns[..k])
      invariant copied == if k == 0 then None else Some(md)
    {
      md := md + Entry(anns[k]);
      assert anns[..k + 1][..k] == anns[..k];
      copied := Some(md);
    }
    assert anns[..|anns|] == anns;
  }

  // ---------------------------------------------------------------------------
  // The export
  // ---------------------------------------------------------------------------

  /**
   * `export_annotations` after its query: it rejects a format outside
   * `SUPPORTED_FORMATS`; otherwise it returns `highlights.<format>` together
   * with the re-joined triples and, for `csv`, the rows for the CSV writer,
   * or, for `md`, what ends up on the clipboard.
   */
  method ExportAnnotations(format: string, rows: seq<Row>) returns (r: Result<Export, ExportError>)
    requires IsSupported(format) ==> PairwiseComparable(Locations(rows))
    ensures r.Failure? <==> !IsSupported(format)
    ensures r.Success? ==> r.value.filename == Filename(format)
    ensures r.Success? ==>
      r.value.annotations == Rejoin(SortEpubcfi(Locations(rows)), Normalize(rows))
    ensures r.Success? && Lower(format) == "csv" ==>
      r.value.output == CsvRows(r.value.annotations)
    ensures r.Success? && Lower(format) != "csv" ==>
      r.value.output == Clipboard(if r.value.annotations == [] then None else Some(Markdown(r.value.annotations)))
  {
    var fmt := Lower(format);
    if fmt !in SupportedFormats {
      return Failure(UnsupportedFormat);
    }
    var filename := "highlights." + fmt;
    var anns := Normalize(rows);
    var sortedLocations := SortEpubcfi(Locations(rows));
    var sortedAnnotations := Rejoin(sortedLocations, anns);
    var output;
    if fmt == "csv" {
      CsvRowsAreExport(rows);
      output := CsvRows(CsvRowsOf(sortedAnnotations));
    } else {
      var md, copied := RenderMarkdown(sortedAnnotations);
      output := Clipboard(copied);
    }
    r := Success(Export(filename, sortedAnnotations, output));
  }
}

# bookbits: ordering and exporting Apple Books annotations

`bookbits.py` reads the highlights and notes of one book from the Apple Books
annotation database. It puts them in reading order and exports them as CSV
rows or as a Markdown text copied to the clipboard. Reading order comes from
each annotation's location, an EPUB Canonical Fragment Identifier such as
`epubcfi(/6/18[chapter2]!/4/138/1,:0,:431)`.

This project models that core in Dafny and proves what it does:

- `parse_cfi` cuts `cfi[7:-1]`, deletes every comma and splits at `/` and
  `:` with a capturing `re.split`. The separators stay in the list, and
  text pieces and separators alternate.
- `cfi_to_tuple` turns each piece into an `int` when it is all digits and
  keeps it as a `str` otherwise.
- `sort_epubcfi` is Python's stable `sorted` with that tuple as the key.
  Tuples compare element by element. An `int` against a `str` is a
  `TypeError`, modelled as the outcome `Incomparable`.
- `export_annotations`, once the query has returned its rows:
  - checks the format and builds the file name;
  - replaces newlines in highlights and notes, and turns a missing note into
    `""`;
  - sorts the locations alone;
  - re-joins the triples to the sorted locations with a nested
    comprehension;
  - for `csv`, builds the rows for the CSV writer;
  - for `md`, builds the Markdown text in a loop.

The model follows the code:

- **The sort key.** `cfi_to_tuple` builds a mixed `int`/`str` tuple
  (`bookbits.py:32-45`), and the model uses that tuple.
- **The slice.** The comment at `bookbits.py:26` says the slice removes
  `epubcfi(`, but `cfi[7:-1]` keeps the `(`. The first piece of every
  location is therefore `"("`, not `""`.
- **The re-join.** It matches triples by location equality. A location that
  occurs k times is visited k times, and each visit emits all k of its
  triples, so the location contributes k·k triples to the output. The model
  proves this behaviour as written.

Modules:

- `Wrappers`: `Option`, `Result`.
- `CfiParse`: `parse_cfi`, `cfi_to_tuple`.
- `CfiOrder`: Python's ordering of the keys.
- `CfiSort`: `sort_epubcfi`. Like CPython, it computes each key once, sorts
  (key, location) pairs by key, then drops the keys.
- `Annotations`: format check, normalisation and re-join.
- `Exporting`: CSV rows, Markdown loop, the export as a whole.
- `CfiVectors`: small worked examples.
- `CfiDemo`: the example list at `bookbits.py:54-64`, written both as its
  string literals and as the pieces they split into.

## Model

| member | source | states |
|---|---|---|
| CfiParse.CfiBodyDropsSevenAndOne | bookbits.py:26-27 | For at least 8 characters, the slice is everything between the first 7 characters and the last one. A string of 8 characters or fewer gives `""`, and only such strings do. |
| CfiParse.RemoveCommas | bookbits.py:28 | The result holds no comma and only characters of the input. Every other character occurs as often as in the input. |
| CfiParse.RemoveCommasNoComma | bookbits.py:28 | A string without commas is returned unchanged. |
| CfiParse.RemoveCommasAppend | bookbits.py:28 | Deleting commas from a concatenation is deleting them from each part. |
| CfiParse.Split | bookbits.py:30 | The capturing split gives an odd number of pieces. Odd positions hold one separator character and even positions hold separator-free text, possibly empty. Joining the pieces gives the input back. |
| CfiParse.SplitUnique | bookbits.py:30 | Any piece list of that shape that joins to `s` is exactly the split of `s`. So split and join are inverse on shaped lists. |
| CfiParse.ParseCfiPieces | bookbits.py:22-30 | No piece of `parse_cfi` holds a comma. Odd pieces are exactly `"/"` or `":"`. Even pieces hold neither. Joining the pieces gives the comma-free slice. |
| CfiParse.ParseCfiFirstPiece | bookbits.py:26-30 | For a location starting `epubcfi(`, the first piece starts with `(`. When the path follows directly, the first piece is exactly `"("`. |
| CfiParse.KeyShape | bookbits.py:32-45 | The key has one token per piece and odd length. Every separator position holds `"/"` or `":"` as a string. A location with the prefix starts with a string token beginning with `(`. |
| CfiParse.CfiToTuple | bookbits.py:32-45 | The loop returns one token per piece in order. A token is `int(piece)` for a run of digits and the piece itself otherwise. The result equals the key the sort uses. |
| CfiParse.CommaBranchUnreachable | bookbits.py:41-42 | No piece is `","`, so the separator branch only ever sees `/` or `:`. |
| CfiOrder.CompareStrFacts | bookbits.py:51 | String comparison never fails. It gives `Equal` exactly for equal strings, and swapping the operands flips the outcome. |
| CfiOrder.CompareStrTrans | bookbits.py:51 | String `<` is transitive. |
| CfiOrder.CompareTokFacts | bookbits.py:39-44 | Two tokens are `Equal` exactly when they are identical, and swapping them flips the outcome. The comparison is `Incomparable` (`TypeError`) exactly when one is an `int` and the other a `str`. |
| CfiOrder.CompareTokTrans | bookbits.py:51 | Token `<` is transitive. |
| CfiOrder.CompareKeysEqual | bookbits.py:51 | Two keys compare `Equal` exactly when they are the same tuple. |
| CfiOrder.CompareKeysFlip | bookbits.py:51 | Swapping two keys flips their comparison, `TypeError` included. |
| CfiOrder.CompareKeysTrans | bookbits.py:51 | Key `<` is transitive. |
| CfiOrder.CompareKeysFirstDifference | bookbits.py:51 | The first index where two keys differ decides their comparison. |
| CfiOrder.CompareKeysPrefix | bookbits.py:51 | A strict prefix sorts first. |
| CfiOrder.SlashBeforeColon | bookbits.py:51 | When the keys first differ at a separator position, `/` sorts before `:`. |
| CfiOrder.NumberAgainstString | bookbits.py:51 | An `int` against a `str` at the first difference is a `TypeError`, in either order. |
| CfiSort.KeyLeTrans | bookbits.py:51 | "Not after" by key is transitive. |
| CfiSort.SortKeyed | bookbits.py:51 | Sorting (key, location) pairs returns a permutation that is non-decreasing by key. |
| CfiSort.SortKeyedSorted | bookbits.py:51 | Pairs already in key order come back unchanged. |
| CfiSort.SortKeyedStable | bookbits.py:51 | Pairs with equal keys keep their relative order. |
| CfiSort.SortEpubcfiSorted | bookbits.py:47-51 | `sort_epubcfi` returns a permutation of its input, non-decreasing by key. |
| CfiSort.SortEpubcfiStable | bookbits.py:47-51 | For any key, the locations with that key appear in the output in their input order. |
| CfiSort.SortSortedUnchanged | bookbits.py:47-51 | A list already in key order raises no `TypeError` and is returned unchanged. |
| CfiSort.SortIdempotent | bookbits.py:47-51 | Sorting the sorted list changes nothing. |
| CfiSort.NeighboursSorted | bookbits.py:51 | A list whose neighbours are in key order is sorted. |
| CfiVectors.KeyOfPoint | bookbits.py:32-45 | The key of `epubcfi(/6/4/2)` is `('(', '/', 6, '/', 4, '/', 2)`. |
| CfiVectors.KeyOfLaterPoint | bookbits.py:32-45 | The key of `epubcfi(/6/4/10)` ends with the number 10. |
| CfiVectors.KeyOfAssertedStep | bookbits.py:32-45 | A step with a bracketed assertion, `4[a]`, stays a string in the key. |
| CfiVectors.NumericSteps | bookbits.py:39-40 | Step 2 sorts before step 10 because the numbers compare as numbers, although the string `"2"` is greater than `"10"`. |
| CfiVectors.AssertedStepIncomparable | bookbits.py:39-44 | `4[a]` against `4` at the same position is a `TypeError`. |
| CfiVectors.SortTwoPoints | bookbits.py:47-51 | `sort_epubcfi` puts `/6/4/2` before `/6/4/10` when given them in the opposite order. |
| CfiVectors.SortPair | bookbits.py:47-51 | Two locations given in the wrong order come back swapped. |
| CfiDemo.RawKey | bookbits.py:22-45 | For a location written as its pieces at `/` and `:`, each token is the matching piece with its commas deleted, read as `int` or `str`. |
| CfiDemo.PiecesCompareAfter | bookbits.py:51 | Two such locations compare as the first pieces that differ once commas are ignored. |
| CfiDemo.SortedFromPieces | bookbits.py:51 | Locations whose pieces each have a key below the next one's are in key order. |
| CfiDemo.Step55 | bookbits.py:55-56 | Line 55 sorts before line 56 (`174` < `232`). |
| CfiDemo.Step56 | bookbits.py:56-57 | Line 56 sorts before line 57 (`16[chapter1]!` < `18[chapter2]!`). |
| CfiDemo.Step57 | bookbits.py:57-58 | Line 57 sorts before line 58 (`46` < `138`, although one path has `4,` and the other `4`). |
| CfiDemo.Step58 | bookbits.py:58-59 | Line 58 sorts before line 59 (`138` < `142`). |
| CfiDemo.Step59 | bookbits.py:59-60 | Line 59 sorts before line 60 (`554` < `971`). |
| CfiDemo.Step60 | bookbits.py:60-61 | Line 60 sorts before line 61 (`18[chapter2]!` < `20[chapter3]!`). |
| CfiDemo.Step61 | bookbits.py:61-62 | Line 61 sorts before line 62 (`74` < `263`). |
| CfiDemo.Step62 | bookbits.py:62-63 | Line 62 sorts before line 63 (`728` < `742`). |
| CfiDemo.Literal55 | bookbits.py:55 | The pieces of line 55 join to its string literal, character for character. |
| CfiDemo.Literal56 | bookbits.py:56 | The pieces of line 56 join to its string literal, character for character. |
| CfiDemo.Literal57 | bookbits.py:57 | The pieces of line 57 join to its string literal, character for character. |
| CfiDemo.Literal58 | bookbits.py:58 | The pieces of line 58 join to its string literal, character for character. |
| CfiDemo.Literal59 | bookbits.py:59 | The pieces of line 59 join to its string literal, character for character. |
| CfiDemo.Literal60 | bookbits.py:60 | The pieces of line 60 join to its string literal, character for character. |
| CfiDemo.Literal61 | bookbits.py:61 | The pieces of line 61 join to its string literal, character for character. |
| CfiDemo.Literal62 | bookbits.py:62 | The pieces of line 62 join to its string literal, character for character. |
| CfiDemo.Literal63 | bookbits.py:63 | The pieces of line 63 join to its string literal, character for character. |
| CfiDemo.DemoLiterals | bookbits.py:54-64 | The pieces of all nine lines join to the list `cfis` exactly as written. |
| CfiDemo.DemoInKeyOrder | bookbits.py:54-64 | The list `cfis`, as written, is in key order. |
| CfiDemo.DemoSortUnchanged | bookbits.py:54-66 | `sort_epubcfi(cfis)` raises no `TypeError` and returns the list, as written, unchanged. |
| Annotations.LowerCharIs | bookbits.py:152 | Lower-casing a character gives a given lower-case letter exactly when the character is that letter in either case. |
| Annotations.FormatAccepted | bookbits.py:152-153 | A format is accepted exactly when it is `csv` or `md` in any mix of cases. Then the file name is `highlights.csv` or `highlights.md`. |
| Annotations.ReplaceNewlines | bookbits.py:174-175 | The result has the same length. Each newline becomes a space, every other character is kept, and no newline is left. |
| Annotations.ReplaceNewlinesNone | bookbits.py:174-175 | Text without newlines is unchanged. |
| Annotations.NormalizeFacts | bookbits.py:174-176 | There is one triple per row, with the row's location. The highlight is the row's highlight with its newlines replaced. A non-empty note is the row's note with its newlines replaced. Highlight and note hold no newline. The note is `""` exactly when the row's note is missing or empty. |
| Annotations.MatchingCount | bookbits.py:178 | The inner loop finds as many triples for a location as that location occurs among them. |
| Annotations.RejoinPerLocation | bookbits.py:178 | The triples of one location in the output are that location's input triples, in input order, repeated once per occurrence of the location in the sorted list. |
| Annotations.RejoinMultiset | bookbits.py:178 | Each triple occurs in the output as often as in the input times the number of occurrences of its location. |
| Annotations.RejoinSorted | bookbits.py:177-178 | Over a sorted location list, the output is in location order. Every output triple is an input triple whose location is in the list. |
| Annotations.RejoinLength | bookbits.py:178 | The output length is the sum, over the location list, of each location's number of triples. |
| Annotations.CountSumPermutation | bookbits.py:177-178 | That sum does not depend on the order of the location list. |
| Annotations.ExportSorted | bookbits.py:174-178 | The exported triples are in location order, and each is a normalised input triple. |
| Annotations.ExportRepeats | bookbits.py:174-178 | A location that occurs k times contributes its k triples k times over, k·k in all. |
| Annotations.ExportLength | bookbits.py:174-178 | The number of exported triples is the sum over the input locations of their occurrence counts, that is the sum of k² over distinct locations. |
| Annotations.RejoinOnce | bookbits.py:178 | When every location occurs once, the output is a permutation of the triples. |
| Annotations.RejoinDistinct | bookbits.py:174-178 | With pairwise distinct locations, the export is a permutation of the normalised rows. |
| Exporting.CsvRowUnchanged | bookbits.py:183-185 | The second normalisation leaves a newline-free triple unchanged. |
| Exporting.CsvRecordOrder | bookbits.py:181-185 | Each dictionary has exactly the header's keys. The writer's record for it holds highlight, note and location, in the header's order. |
| Exporting.CsvRowsAreExport | bookbits.py:174-186 | The rows handed to the CSV writer are exactly the exported triples, in sorted order. |
| Exporting.SplitLines | bookbits.py:191 | `split("\n")` gives at least one line, none holding a newline, and joining them with newlines gives the text back. |
| Exporting.SplitLinesUnique | bookbits.py:191 | Any newline-free lines that join to `s` are exactly `s.split("\n")`, so split and join are inverse. |
| Exporting.NoNewlineSplit | bookbits.py:191 | Text without newlines is one line. |
| Exporting.EntryShape | bookbits.py:190-194 | A one-line highlight gives `> highlight` and a blank line, then the note and a blank line only when the note is not empty. |
| Exporting.MarkdownAppend | bookbits.py:189-194 | The Markdown of two runs of triples is the Markdown of each, concatenated. |
| Exporting.EntryInjective | bookbits.py:190-194 | For newline-free triples, two entries are equal exactly when highlight and note are equal. |
| Exporting.RenderMarkdown | bookbits.py:189-195 | The loop builds the Markdown of all triples in order. The clipboard ends up holding that text, or was never written when there are no triples. |
| Exporting.ExportAnnotations | bookbits.py:152-200 | Fails exactly for an unsupported format. Otherwise it returns `highlights.<format lower-cased>` with the re-joined triples. For `csv` it also returns those triples as the CSV rows. For `md` it returns their Markdown as the last clipboard value, or nothing when there are no triples. |

## Left out

- The database queries (`get_db_path` and the library queries, `bookbits.py:71-133`) and the annotation query at `bookbits.py:155-169`. The fetched rows are the input. Highlights are never missing, as the query's filter implies.
- Writing the CSV file (`bookbits.py:179-186`). The model stops at the rows handed to `writerows`. The dictionary per row and the order in which `DictWriter` writes its values are modelled. The header line, the `;` delimiter and the `csv` module's quoting are not.
- `pyperclip.copy` (`bookbits.py:195`). Only the last text put on the clipboard is modelled.
- `IOError` and `sqlite3.Error` handling, and logging (`bookbits.py:18`, `167-169`, `196-198`): these are I/O failures.
- The interactive menu in `main` (`bookbits.py:202-277`), the `print` calls (`bookbits.py:29`, `166`) and the import-time run of the example (`bookbits.py:66-68`). Only the example's data is kept.
- `str.isdigit` and `str.lower` are modelled for ASCII only. Unicode digits such as superscripts, on which `int()` would raise, are not modelled.
- SortEpubcfi: requires every pair of keys to be comparable. Python raises `TypeError` only when timsort happens to compare an incomparable pair, and which pairs it compares is not modelled. So lists that hold such a pair but that Python might still sort are not covered.
- ExportAnnotations: requires, for a supported format, pairwise comparable locations, for the same reason. The `TypeError` path of the sort is not modelled.

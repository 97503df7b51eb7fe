# Sumatra record formatting and web-view helpers, in Dafny

Sumatra records computational experiments: each run is a *record* with a
label, the code version, the parameters, the input and output data. This
project models the plain logic that turns records into text and the small
helpers of the web interface:

- `Durations`: `_quotient_remainder` and `human_readable_duration` on whole
  seconds (`"8d 7h 6m 5.00s"`).
- `Tables`: `TextTable` and `ParamsTable`. It covers column widths capped at
  a maximum, `'|'` grids with padded cells, and `';'` or tab joined lines. It
  also covers the headers of a parameter table: the three fixed fields, then
  every parameter name in first-seen order.
- `TeX`: `LaTeXFormatter._escape_tex`, eight regular-expression substitutions
  followed by `replace('/', '/ ')`. It is proved equal to a one-pass escape.
- `Labels`: `short()` of the text, CSV, TSV and HTML formatters. It also
  covers `output_files()` of the text, CSV and TSV formatters.
- `TextWrap`: the Python 2.7 `textwrap.dedent` used by the diff summary.
- `DiffFormat`: `TextDiffFormatter.short` (the fourteen-line yes/no summary)
  and `TextDiffFormatter.long` (the detailed report).
- `Pairing`: `pair_datafiles`, the greedy matching of two records' output
  files by name similarity. Both the code as written and a corrected version
  are modelled.
- `Views`: label unescaping, the `truncate` query parameter and the
  `truncated` flag. It also covers the template chosen for a data file and
  the `delete_data` form flag.
- `Strings` and `Results` hold shared helpers. These are join, split, replace,
  ASCII case mapping, decimal integers, and `Option`/`Result`.

Record attributes are given already rendered as the `%s` or `str()` the source
applies to them. A dictionary is a sequence of pairs in its iteration order.
Calls the model cannot see become parameters:

- the file-name similarity `difflib.SequenceMatcher(...).ratio()` of
  basenames is the function `sim`;
- the encoding `mimetypes.guess_type` finds is the `encoding` argument.

## Model

| member | source | states |
|---|---|---|
| Durations.QuotientRemainder | sumatra/formatting/__init__.py:580-583 | the quotient and remainder recompose the dividend, and the remainder lies between zero and the divisor, on the divisor's side |
| Durations.Decompose | sumatra/formatting/__init__.py:605-609 | days, hours, minutes and seconds add back up to the total, with hours below 24 and minutes and seconds below 60 |
| Durations.HumanReadableDuration | sumatra/formatting/__init__.py:611-620 | the text is empty exactly when the duration is zero, because every nonzero unit is printed |
| Durations.DecomposeUnique | sumatra/formatting/__init__.py:605-609 | any days, hours, minutes and seconds that add up to the total, with hours below 24 and minutes and seconds below 60, are the ones the successive divisions give |
| Durations.RenderedPieces | sumatra/formatting/__init__.py:611-620 | a zero duration renders as nothing; otherwise the text split at spaces is, in order, the days, hours and minutes pieces of the nonzero units, then the seconds piece `N.00s` when the seconds are nonzero |
| Durations.ReadRenderedDuration | sumatra/formatting/__init__.py:586-620 | reading the rendered text back as a sum of `d`, `h`, `m` and `s` pieces gives the number of seconds rendered |
| Durations.DurationExample1 | sumatra/formatting/__init__.py:590-591 | 6h 32m 12s renders as `6h 32m 12.00s` |
| Durations.DurationExample2 | sumatra/formatting/__init__.py:592-593 | 8d 7h 6m 5s renders as `8d 7h 6m 5.00s` |
| Durations.DurationExample3 | sumatra/formatting/__init__.py:594-599 | zero trailing units are omitted (`8d 7h 6m`, `8d 7h`, `8d`) |
| Tables.LongestCell | sumatra/formatting/__init__.py:131 | the measure of a column is at least the header and every cell, and equals one of them |
| Tables.ColumnWidths | sumatra/formatting/__init__.py:129-134 | each width is the smaller of the maximum and the longest of the header and the column's cells; below the maximum it is the length of the header or of some cell, and at the maximum some header or cell is at least that long |
| Tables.TextTableRowsAligned | sumatra/formatting/__init__.py:136-146 | in a pipe-separated grid table every data line has the same length, the sum of the widths plus the borders |
| Tables.TextTablePipeLines | sumatra/formatting/__init__.py:136-146 | in a pipe-separated table whose headers and cells hold no pipe, the text between the pipes of the header line is each title-cased header padded to its column's width with one space either side, and of each data line each cell cut to the maximum width and padded the same way |
| Tables.TextTablePlainLines | sumatra/formatting/__init__.py:136-146 | in a `';'` or tab table the header line splits back into the title-cased headers and each data line into the record's cells cut to the maximum width |
| Tables.DedupKeepsFirstOccurrences | sumatra/formatting/__init__.py:162-171 | keeping the first occurrence of each value gives the same members, no duplicates, in order of first appearance |
| Tables.GetHeaders | sumatra/formatting/__init__.py:162-171 | the headers start with label, version and main file, hold no duplicate, hold exactly the fixed names and every parameter name, and are in first-seen order |
| Tables.DedupExtends | sumatra/formatting/__init__.py:165-170 | deduplicating a longer sequence only appends: the deduplicated prefix is a prefix of the result, so later rows only add headers after earlier ones |
| Tables.Lookup | sumatra/formatting/__init__.py:197 | a parameter lookup is absent exactly when the record has no such key, and a found value belongs to the record under that key |
| Tables.LookupDistinct | sumatra/formatting/__init__.py:197 | with distinct keys the lookup of a record's key gives that key's value |
| Tables.DisplayWithinWidthCell | sumatra/formatting/__init__.py:173-181 | a printed parameter cell is never longer than the cell its column width was measured on (`''` printed where `None` was measured) |
| Tables.ParamsTableRowsAligned | sumatra/formatting/__init__.py:183-198 | in a pipe-separated parameter table every data line has the same length |
| Tables.ParamsTablePipeHeader | sumatra/formatting/__init__.py:183-198 | in a pipe-separated parameter table the text between the pipes of the header line is the headers, each padded to its column's width with one space either side |
| Tables.ParamsTablePipeLine | sumatra/formatting/__init__.py:183-198 | in a pipe-separated parameter table the text between the pipes of a data line is the record's cut label, version and main file, then per parameter column its cut value or `''`, each padded to its column's width |
| Tables.ParamsTablePlainLine | sumatra/formatting/__init__.py:183-198 | a `';'` or tab data line splits into the cut label, version and main file, then per parameter column the record's cut value, or `''` when it lacks the parameter |
| TeX.EscapeTexIsOnePass | sumatra/formatting/__init__.py:327-345 | the eight passes in sequence equal one left-to-right escape in which no inserted text is escaped again |
| TeX.InsertedIsSettled | sumatra/formatting/__init__.py:327-336 | the text a substitution inserts is left alone by every later substitution and holds no dot |
| TeX.CharPasses | sumatra/formatting/__init__.py:327-345 | every character other than a dot goes through all passes into its one-character escape |
| TeX.EscapeTexKeepsPlainText | sumatra/formatting/__init__.py:339-345 | text with no special character and no run of three dots comes out unchanged |
| TeX.EscapeTexBackslash | sumatra/formatting/__init__.py:328 | a backslash becomes `\textbackslash`, whose own backslash is not escaped again |
| TeX.EscapeTexDots | sumatra/formatting/__init__.py:333 | four dots become one `\ldots`, and two dots stay |
| Labels.ShortSplits | sumatra/formatting/__init__.py:42-44 | when no label holds the separator, splitting `short()` of the text, CSV or TSV formatter on its separator gives back the labels in order |
| Labels.ShortEmpty | sumatra/formatting/__init__.py:371-373 | the listing is empty exactly when there is no record or one record with an empty label |
| Labels.HtmlShortIsList | sumatra/formatting/__init__.py:295-299 | the HTML listing is a `<ul>` holding one `<li>` item per label, in order |
| Labels.HtmlShortOfNothing | sumatra/formatting/__init__.py:299 | with no record the HTML listing still holds one empty item |
| Labels.ReduceAddFlattens | sumatra/formatting/__init__.py:112-113 | `reduce(operator.add, lists)` fails exactly on no lists and otherwise concatenates them in order |
| Labels.OutputFilesListsPaths | sumatra/formatting/__init__.py:399-402 | `output_files()` fails exactly when there is no record, otherwise joins every record's output paths, which a split on the separator gives back |
| TextWrap.LeadingBlanks | sumatra/formatting/__init__.py:459 | the indentation of a line is its longest prefix of spaces and tabs |
| TextWrap.MarginOfPrefixed | sumatra/formatting/__init__.py:459 | the common margin of lines indented by a margin plus their own indentation, one of them unindented, is that margin |
| TextWrap.DedentCommonMargin | sumatra/formatting/__init__.py:459 | dedenting lines that share a margin of spaces gives back the lines without it |
| DiffFormat.YesNo | sumatra/formatting/__init__.py:456-457 | a flag is printed as `yes` exactly when it is set and as `no` exactly when it is not |
| DiffFormat.CaptionShape | sumatra/formatting/__init__.py:460-473 | every caption is 26 characters wide; its leading blanks are two spaces for the nested code items and none for the others |
| DiffFormat.ShortLines | sumatra/formatting/__init__.py:459-487 | with single-line labels the summary's 12-space template indentation is removed and its lines are the fourteen caption lines |
| DiffFormat.ShortReportsFlags | sumatra/formatting/__init__.py:454-487 | the summary has fourteen lines, the first two show the record labels and the next twelve each read back as the corresponding flag |
| DiffFormat.ExecutableSection | sumatra/formatting/__init__.py:494-497 | the executable section is empty exactly when the executables do not differ, and otherwise opens with its heading |
| DiffFormat.CodeSection | sumatra/formatting/__init__.py:498-504 | the code section is empty exactly when the code does not differ, and otherwise opens with its heading |
| DiffFormat.DependencySection | sumatra/formatting/__init__.py:505-518 | the dependency section is empty exactly when the dependencies do not differ, and otherwise opens with its heading |
| DiffFormat.LaunchSection | sumatra/formatting/__init__.py:520-525 | the launch mode section is empty exactly when there are no launch mode details, and otherwise opens with its heading |
| DiffFormat.ParameterSection | sumatra/formatting/__init__.py:526-529 | the parameter section is empty exactly when the parameters do not differ, and otherwise opens with its heading |
| DiffFormat.InputSection | sumatra/formatting/__init__.py:530-533 | the input data section is empty exactly when the input data do not differ, and otherwise opens with its heading |
| DiffFormat.ScriptSection | sumatra/formatting/__init__.py:534-537 | the script argument section is empty exactly when the arguments do not differ, and otherwise opens with its heading |
| DiffFormat.OutputSection | sumatra/formatting/__init__.py:538-548 | the output data section is empty exactly when neither record produced data the other did not, and otherwise opens with its heading |
| DiffFormat.LongHeadingsInOrder | sumatra/formatting/__init__.py:489-549 | the report is its eight sections in order; the heading of every non-empty section occurs where that section starts, and comes before every later section |
| DiffFormat.ReportEmpty | sumatra/formatting/__init__.py:489-549 | the report is empty exactly when no section has anything to report |
| DiffFormat.LongOpensWithExecutable | sumatra/formatting/__init__.py:493-495 | when the executables differ the report opens with the executable heading |
| DiffFormat.LongIgnoresSecondDiffs | sumatra/formatting/__init__.py:508-514 | as written, the report does not change when only the second record's dependency diffs change |
| DiffFormat.AsWrittenHidesSecondDiff | sumatra/formatting/__init__.py:511-514 | as written, two dependency entries with the same versions but different second diffs print the same |
| DiffFormat.CorrectedShowsSecondDiff | sumatra/formatting/__init__.py:511-514 | in the corrected report, a different second diff at the same version gives a different entry |
| DiffFormat.LongCorrectedAgrees | sumatra/formatting/__init__.py:489-549 | when both records of every shared dependency carry the same diff, the corrected report equals the report as written |
| DiffFormat.IndentDiffInjective | sumatra/formatting/__init__.py:512 | indenting a diff's continuation lines loses nothing: different diffs stay different |
| Pairing.Scores | sumatra/web/views.py:512-518 | one similarity per pair of remaining files, in row-major order |
| Pairing.ScoresIndex | sumatra/web/views.py:512-518 | the score at position k is the similarity of file k div n2 of the first list and file k mod n2 of the second |
| Pairing.Remove | sumatra/web/views.py:525-526 | `pop` at a position in range leaves one file fewer: the others, in their order |
| Pairing.BestIndex | sumatra/web/views.py:521-523 | the index found holds the maximum score, and every earlier score is smaller, so ties go to the first |
| Pairing.PairAsWritten | sumatra/web/views.py:509-531 | as written, the matching never fails when both lists have the same length, and each match it makes removes one file from each list |
| Pairing.AsWrittenConservesFirst | sumatra/web/views.py:509-531 | as written, when no `pop` fails, every file of the first list ends up exactly once, matched or unmatched |
| Pairing.AsWrittenConservesSecond | sumatra/web/views.py:509-531 | as written, when no `pop` fails, every file of the second list ends up exactly once, matched or unmatched |
| Pairing.AsWrittenKeepsOrder | sumatra/web/views.py:509-531 | as written, when no `pop` fails, the files left unmatched on each side are the input list with some files left out, the rest in their original order |
| Pairing.AsWrittenStops | sumatra/web/views.py:512-528 | as written, when no `pop` fails, matching stops only when a list is exhausted or no remaining pair scores above the threshold |
| Pairing.PairDatafilesAsWritten | sumatra/web/views.py:504-531 | as written with the default threshold 0.7: equal-length lists never fail; otherwise, when no `pop` fails, both lists are conserved, the unmatched files keep their input order, and no remaining pair scores above the threshold unless a list is exhausted |
| Pairing.AsWrittenRaises | sumatra/web/views.py:519-526 | as written, two files against one with the better match second make the second `pop` raise `IndexError` |
| Pairing.AsWrittenMispairs | sumatra/web/views.py:519-526 | as written, with two files on each side, a pair scoring at or below the threshold is matched ahead of the best-scoring pair, which is matched in the next round, and no file is left over |
| Pairing.Choose | sumatra/web/views.py:519-526 | the pair chosen is a valid pair of remaining files with the maximum score, and every pair before it in row-major order scores lower |
| Pairing.ChoiceIsBest | sumatra/web/views.py:519-528 | no pair scores better than the chosen one, and the maximum is above the threshold exactly when some pair is |
| Pairing.PairConservesFirst | sumatra/web/views.py:509-531 | in the corrected matching, every file of the first list ends up exactly once, matched or unmatched |
| Pairing.PairConservesSecond | sumatra/web/views.py:509-531 | in the corrected matching, every file of the second list ends up exactly once, matched or unmatched |
| Pairing.Pair | sumatra/web/views.py:509-531 | in the corrected matching, each match removes one file from each list |
| Pairing.PairKeepsMatches | sumatra/web/views.py:519-526 | in the corrected matching, earlier matches are kept in order, and every new match scores above the threshold |
| Pairing.PairStops | sumatra/web/views.py:511-528 | in the corrected matching, matching stops only when a list is exhausted or no remaining pair scores above the threshold |
| Pairing.PairDatafiles | sumatra/web/views.py:504-531 | the corrected matching with the default threshold 0.7 conserves both lists, keeps the unmatched files in their input order, matches only pairs scoring above it, and stops only when a list is exhausted or no remaining pair scores above it |
| Pairing.PairKeepsOrder | sumatra/web/views.py:509-531 | in the corrected matching, the files left unmatched on each side keep their original relative order |
| Pairing.PairTakesBest | sumatra/web/views.py:511-526 | when some pair scores above the threshold, the first match is a best-scoring pair |
| Views.UnescapeEscape | sumatra/web/views.py:97-98 | unescaping a label escaped by writing each slash as a double bar gives back the label, for labels without a bar |
| Views.UnescapeChanges | sumatra/web/views.py:97-98 | unescaping leaves a label without a double bar unchanged, shortens one with it, and never lengthens |
| Views.UnescapeChangesIff | sumatra/web/views.py:97-98 | unescaping changes a label exactly when it holds a double bar |
| Views.MaxDisplayLengthReads | sumatra/web/views.py:160-166 | with no parameter the limit is 10 KiB, `false` in any case lifts it, and an integer n asks for n KiB |
| Views.MaxDisplayLengthFails | sumatra/web/views.py:160-164 | a `truncate` value raises `ValueError` exactly when it is neither `false` nor an integer |
| Views.TruncatedMeansCut | sumatra/web/views.py:185-186 | content shorter than the limit is all of the data, content cut at the limit is flagged, and without a limit nothing is flagged |
| Views.TruncatedEntryCases | sumatra/web/views.py:177-186 | shown content is flagged at 10 KiB by default and never with `false`, other types carry no flag, and a malformed parameter raises |
| Views.GetTemplateName | sumatra/web/views.py:213-216 | the template lookup fails exactly for gzip-encoded files |
| Views.TemplateNameClassifies | sumatra/web/views.py:217-231 | images get the image template, CSV, plain text and zip files their own, and exactly the other types the base template |
| Views.DeleteDataReads | sumatra/web/views.py:443-446 | the strings a script writes for booleans read back as those booleans, and only an absent field, `true` or `false` is accepted |

## Left out

- Fractional seconds in `human_readable_duration` (`modf` and the `.2f` of a
  float) are not modelled. Seconds are whole numbers, so the seconds piece
  always reads `N.00s`.
- `TextFormatter.long` (`textwrap.wrap` layout), `table`, `params_show` and
  `keyword` are not modelled. Neither are the `long`/`table` of the HTML, CSV
  and TSV formatters, `ShellFormatter`, `LaTeXFormatter.long` (a template
  render), `get_formatter` and `get_diff_formatter`.
- Computing a `RecordDifference` is not modelled (it lives in
  `sumatra/records.py`, which is not part of this model). `DiffFormat` takes
  its flags and details as given.
- `str.title`, `str.lower`, `str.strip` and `int()` are ASCII-only. Unicode
  case mapping and Unicode digits are not modelled.
- Cells are `str()` of record attributes, given as strings. `%-Ns` padding is
  modelled on those strings.
- The templates, Django requests, database queries, file I/O and
  `get_content` of the views are not modelled. Only the logic between them
  is.
- `pair_datafiles` takes the similarity as a function `sim` on files.
  `basename` and `SequenceMatcher` are not modelled.
- `get_template_names` takes the encoding as a parameter.
  `mimetypes.guess_type` is not modelled.
- `output_files` follows Python 2, where `reduce` is a builtin. On no records
  it raises `TypeError`, modelled as an error result.
- TextWrap.DedentCommonMargin: proved only for margins made of spaces around
  lines with no newline. `DiffFormat.ShortLines` and
  `DiffFormat.ShortReportsFlags` therefore require labels without a newline.
  A label with one would change the margin `dedent` computes.
- Tables.TextTablePlainLines: proved only when no header or cell holds the
  separator, since otherwise the line cannot be split back.
- Tables.TextTablePipeLines: proved only when no header or cell holds a
  pipe, since a pipe inside a cell would split it in two.
- Tables.ParamsTablePipeHeader: proved only when no header holds a pipe,
  for the same reason.
- Tables.ParamsTablePipeLine: proved only when no shown value holds a pipe,
  for the same reason.
- Views.UnescapeEscape: proved only for labels without `|`, since `||`
  inside a label cannot be told apart from an escaped `/`.

## Findings

| source | as written | input that shows it | evidently intended | confidence | as-written member | corrected member |
|---|---|---|---|---|---|---|
| sumatra/web/views.py:524-526 | the best pair's index `i_max` in the row-major score list is split as `pop(i_max % n2)` from the first list and `pop(i_max // n2)` from the second, transposing the pair | first list `[x0, x1]`, second list `[y]`, with `y` matching `x1` better than 0.7 and `x0` worse: `i_max = 1`, and `pop(1)` on the one-element second list raises `IndexError` | pop `i_max // n2` from the first list and `i_max % n2` from the second, so the best-scoring pair is matched | high; not executed | Pairing.AsWrittenRaises | Pairing.PairTakesBest |
| sumatra/formatting/__init__.py:514 | the second record's dependency block prints `depA.diff` again | two records sharing a dependency at the same version with different diffs: the report shows the first diff under both | print `depB.diff` under the second record, as line 512 does for the first | high; not executed | DiffFormat.AsWrittenHidesSecondDiff | DiffFormat.CorrectedShowsSecondDiff |

The as-written pairing is `Pairing.PairAsWritten`. `Pairing.AsWrittenMispairs`
also shows it matching a pair scored at or below the threshold ahead of the
best-scoring pair. The corrected pairing is `Pairing.Pair`, with
`Pairing.PairDatafiles` as its entry point; the lemmas whose rows say "in the
corrected matching" are about it. The as-written entry point is
`Pairing.PairDatafilesAsWritten`: it keeps both lists, their order and the
stopping rule, but not the threshold on matches nor the choice of the best
pair.

The as-written report is `DiffFormat.Long`. `DiffFormat.LongIgnoresSecondDiffs`
states the whole-report consequence. The corrected report is
`DiffFormat.LongCorrected`, and `DiffFormat.LongCorrectedAgrees` shows it
differs only where the bug shows.

# GRC panel specification extractor — a Dafny model

The GRC Panel Specification Extractor is a small Streamlit script. It takes an
uploaded PDF, Excel or CSV file of glass-reinforced-concrete panels and
returns a data frame with the columns `Type`, `Count`, `Height`, `Width`,
`Depth`. This project models its three parts:

- **The spreadsheet path** (`extract_from_excel_or_csv`, module `Sheet`):
  - each column label is stripped and lower-cased;
  - an `if`/`elif` chain of English and Latvian keywords maps each label to at
    most one field, tried in the order Type, Count, Height, Width, Depth;
  - the dictionary `col_map` is filled column by column, and a later column
    overwrites an earlier one;
  - unless all five fields were found, the result is the empty frame;
  - otherwise the five mapped columns are selected, renamed to the canonical
    names, and every row with a missing cell is dropped.
- **The PDF path** (`extract_from_pdf`, module `PdfScan`):
  - each page's text is searched with `re.findall` for the pattern
    `(Grc\.[\w\.]+)\s+(\d+)\s+(\d+)\s+(\d+)\s+(\d+)`;
  - the pattern is modelled as a deterministic greedy scanner, and
    `MatchAtIff` / `MatchAtComplete` prove that it finds a match exactly when
    the regular expression has one;
  - every match becomes a record whose four numbers are `int()` of the digit
    runs;
  - a page without text contributes nothing.
- **The router** (module `Upload`): the text after the last dot of the file
  name, lower-cased, sends `pdf` to the scanner and everything else to the
  spreadsheet path.

Module `Text` holds the string primitives the script relies on: `strip()`,
`lower()`, the substring test `k in s`, and `int()` on digits.
`SheetExamples` works the spreadsheet path through on a concrete Latvian
header.

## Model

| member | source | states |
|---|---|---|
| Text.StripLower | extract_grc_data.py:36 | stripping and lower-casing commute, so the order of `strip()` and `lower()` in the normalisation does not matter |
| Text.NormalizeIdempotent | extract_grc_data.py:36 | normalising an already normalised label changes nothing |
| Text.NormalizeIgnoresCase | extract_grc_data.py:36 | two labels that differ only in letter case normalise to the same name |
| Text.NormalizeIgnoresPadding | extract_grc_data.py:36 | whitespace before or after a label does not change its normalised name |
| Text.Normalize | extract_grc_data.py:36 | definition: `str(c).strip().lower()` on a label; characterised by `NormalizeIdempotent`, `NormalizeIgnoresCase` and `NormalizeIgnoresPadding` |
| Text.IsDigit | extract_grc_data.py:18 | definition: regex `\d`, the ASCII decimal digits; used by `InClass` and `AllDigits` |
| Text.IsWordChar | extract_grc_data.py:18 | definition: regex `\w`, ASCII letters, digits and `_`; used by `InClass` and `IsTypeLabel` |
| Text.IsSpace | extract_grc_data.py:36 | definition: the characters for which Python's `str.isspace()` holds, the set `strip()` removes and regex `\s` matches |
| Text.TrimStart | extract_grc_data.py:36 | `lstrip()`: the result is a suffix of the input that is empty or starts with a non-whitespace character, and everything removed before it is whitespace |
| Text.TrimEnd | extract_grc_data.py:36 | `rstrip()`: the result is a prefix of the input that is empty or ends with a non-whitespace character, and everything removed after it is whitespace |
| Text.Strip | extract_grc_data.py:36 | definition: `rstrip()` after `lstrip()`; characterised by `TrimStart`, `TrimEnd` and `StripIdempotent` |
| Text.StripIdempotent | extract_grc_data.py:36 | stripping twice is stripping once |
| Text.LowerChar | extract_grc_data.py:36 | definition: each upper-case letter of ASCII, Latin-1 and Latin Extended-A to its lower-case partner; characterised by `LowerCharIdempotent` and `LowerCharSpace` |
| Text.LowerCharIdempotent | extract_grc_data.py:36 | lower-casing a lower-cased character changes nothing |
| Text.LowerCharSpace | extract_grc_data.py:36 | lower-casing neither creates nor removes whitespace |
| Text.Lower | extract_grc_data.py:36 | definition: `lower()` character by character; characterised by `LowerIdempotent` and `StripLower` |
| Text.LowerIdempotent | extract_grc_data.py:36 | lower-casing twice is lower-casing once |
| Text.Contains | extract_grc_data.py:40-49 | definition: `k in s` holds when `k` occurs at some position of `s`; a plain definition used by `Classify` and `Mentions` |
| Text.DigitsValue | extract_grc_data.py:23-26 | `int()` of a non-empty run of decimal digits (what `\d+` captures) is a natural number below 10 to the power of the run's length |
| Text.DigitsValueAppend | extract_grc_data.py:23-26 | the value of digits `a` followed by digits `b` is the value of `a` times 10 to the length of `b`, plus the value of `b`, so leading zeros add nothing |
| Text.DecimalString | extract_grc_data.py:23-26 | the decimal form of a natural number: non-empty, all digits, no leading zero — the partner against which `DigitsValue` is checked |
| Text.DigitsValueOfDecimal | extract_grc_data.py:23-26 | `int()` of the decimal form of any natural number gives that number back |
| Sheet.NormalizeAll | extract_grc_data.py:36 | definition: the list comprehension normalising every label, in column order; characterised by `NormalizeIgnoresCase`, `NormalizeIgnoresPadding` and `NormalizeIdempotent` |
| Sheet.Keywords | extract_grc_data.py:40-49 | definition: the English and Latvian keywords of each field, as the branches list them; tied to the chain by `MentionsChain` |
| Sheet.IsEmpty | extract_grc_data.py:66 | definition: pandas' `df.empty`, no columns or no rows; characterised for the PDF frame by `Upload.RecordsTable` |
| Sheet.Mentions | extract_grc_data.py:40-49 | definition: a label mentions a field when it contains one of the field's English or Latvian keywords; tied to the chain by `MentionsChain` |
| Sheet.Classify | extract_grc_data.py:40-49 | definition: the `if`/`elif` chain on one label; characterised by `ClassifyPriority` |
| Sheet.MentionsChain | extract_grc_data.py:40-49 | each branch condition of the `elif` chain is exactly "the label contains one of this field's keywords" |
| Sheet.ClassifyPriority | extract_grc_data.py:40-49 | a label is claimed by no field iff it mentions none; otherwise by a field whose keyword it mentions, and every field tried before that one is absent from it, so one column goes to one field only |
| Sheet.ColumnMap | extract_grc_data.py:38-49 | after the loop a field is a key iff some column is classified as it; its value is the last such column; every value is one of the labels |
| Sheet.Assign | extract_grc_data.py:40-49 | definition: the one assignment (or none) the chain makes for a label; `ColumnMap` folds it over the labels |
| Sheet.BuildColumnMap | extract_grc_data.py:38-49 | the loop with the `elif` chain and overwriting assignments builds exactly `ColumnMap` of the labels |
| Sheet.GateComplete | extract_grc_data.py:51 | the mapping never has more than five keys, and `len(col_map) < 5` fails exactly when all five fields are keys |
| Sheet.MappingComplete | extract_grc_data.py:38-53 | when every field is detected, the mapping has five keys and maps each to one of the labels |
| Sheet.SheetResult | extract_grc_data.py:36-57 | definition: normalise, map, gate, project and `dropna()`; characterised by `SheetShape`, `SheetRows` and `SheetRowsFromSource` |
| Sheet.SheetShape | extract_grc_data.py:51-56 | the result has the columns Type, Count, Height, Width, Depth in that order exactly when every field is detected, and is the empty frame otherwise |
| Sheet.IndexOf | extract_grc_data.py:55 | column selection by label finds the first column with that label |
| Sheet.ProjectRow | extract_grc_data.py:55-56 | definition: one row's cells under the five mapped labels, in canonical order; characterised by `ProjectedRowSurvives`, `SheetRows` and `SheetRowsFromSource` |
| Sheet.Project | extract_grc_data.py:55-56 | definition: `df[[...]]` with the columns renamed, `ProjectRow` applied to every row in order; characterised by `ProjectedRowSurvives`, `SheetRows` and `SheetRowsFromSource` |
| Sheet.DropAbsent | extract_grc_data.py:57 | `dropna()` keeps exactly the rows without a missing cell and never adds rows |
| Sheet.DropAbsentAppend | extract_grc_data.py:57 | row removal works row by row over concatenation, so survivors keep their relative order |
| Sheet.DropAbsentKeepsComplete | extract_grc_data.py:57 | a table with no missing cell is unchanged by `dropna()` |
| Sheet.DropAbsentIdempotent | extract_grc_data.py:57 | applying `dropna()` twice equals applying it once |
| Sheet.ProjectedRowSurvives | extract_grc_data.py:55-57 | a projected row survives iff none of its five mapped source cells is missing |
| Sheet.SheetRows | extract_grc_data.py:55-57 | on success a source row's projection is in the result iff none of its five mapped cells is missing, and each output cell equals that row's cell in the mapped column |
| Sheet.SheetRowsFromSource | extract_grc_data.py:51-57 | every output row implies that all five fields were detected, has five non-missing cells, and is the projection of some source row |
| Sheet.ExtractFromTable | extract_grc_data.py:36-57 | the spreadsheet path with the loop run step by step yields exactly `SheetResult` |
| SheetExamples.TypeBeatsCount | extract_grc_data.py:40-43 | the label `type count` mentions Count yet is claimed by Type, which is tried first |
| SheetExamples.LaterColumnWins | extract_grc_data.py:39-41 | with two columns that both name a type, the later one ends up in the mapping |
| SheetExamples.ClassifiedSvars | extract_grc_data.py:40-49 | the label `svars` (weight) matches no branch and is ignored |
| SheetExamples.ClassifiedUnnamed | extract_grc_data.py:40-49 | the label pandas gives an empty header cell (`unnamed: 3`) matches no branch |
| SheetExamples.ClassifiedPlatums | extract_grc_data.py:46-47 | `platums` is claimed by Width |
| SheetExamples.ClassifiedDzilums | extract_grc_data.py:48-49 | `dziļums` is claimed by Depth |
| SheetExamples.LatvianColumnMap | extract_grc_data.py:38-49 | the Latvian labels map Type, Count, Height, Width and Depth to `tips`, `skaits`, `augstums`, `platums`, `dziļums` |
| SheetExamples.LatvianNormalized | extract_grc_data.py:36 | the capitalised Latvian header normalises to the lower-case labels |
| SheetExamples.LatvianProjectRow | extract_grc_data.py:55-56 | on the Latvian header projection keeps the cells in columns 0, 1, 4, 5 and 6, in that order |
| SheetExamples.LatvianSheet | extract_grc_data.py:36-57 | on the Latvian header the complete row is kept with its five cells in canonical order, the weight column is dropped, and a row with a missing height is removed |
| PdfScan.InClass | extract_grc_data.py:18 | definition: the pattern's classes `[\w\.]`, `\s` and `\d`; characterised by `RunEndSound` and `TypeLabelHasNoSpace` |
| PdfScan.RunEnd | extract_grc_data.py:18 | a greedy character run ends within the text, at or after its start |
| PdfScan.RunEndSound | extract_grc_data.py:18 | every character of the run is in the class, and the run stops at the end of the text or at a character outside the class |
| PdfScan.RunEndCovers | extract_grc_data.py:18 | the greedy run reaches at least as far as any run of the class from the same start |
| PdfScan.RunEndStops | extract_grc_data.py:18 | the greedy run ends exactly at the first character outside the class |
| PdfScan.SpacedGroup | extract_grc_data.py:18 | a found `\s+(\d+)` group lies after its start and inside the text |
| PdfScan.SpacedGroupSound | extract_grc_data.py:18 | a found group is one or more whitespace characters then a maximal run of digits |
| PdfScan.SpacedGroupFinds | extract_grc_data.py:18 | whenever `\s+\d+` can match, the greedy group finds it with the same digit start, and ends exactly where the run ends when whitespace follows |
| PdfScan.Spans | extract_grc_data.py:18 | definition: the pattern's own meaning, any split of the text into `Grc.`, a word-or-dot run and four whitespace-then-digit groups; related to the scanner by `MatchAtIff` |
| PdfScan.MatchAt | extract_grc_data.py:18 | a match found at a position has its five groups in order inside the text |
| PdfScan.MatchAtSound | extract_grc_data.py:18 | a match found at a position is a split of the text the pattern accepts, and the last digit run is maximal |
| PdfScan.MatchAtComplete | extract_grc_data.py:18 | if the pattern accepts any split at a position, the scanner matches there with the same type label and first three groups, and a last group from the same start extended to the longest digit run, so no backtracking is needed |
| PdfScan.MatchAtIff | extract_grc_data.py:18 | the scanner matches at a position iff the pattern accepts some split there |
| PdfScan.CapturesOf | extract_grc_data.py:18-20 | definition: the tuple of five groups `findall` returns for a match, `unit_type, count, height, width, depth`; characterised by `CapturesWellFormed` and `LabelLineFindAll` |
| PdfScan.TypeLabelHasNoSpace | extract_grc_data.py:18 | a captured type label holds no whitespace |
| PdfScan.CapturesWellFormed | extract_grc_data.py:18-20 | the captures of an accepted split are a type label `Grc.` plus word or dot characters, and four non-empty digit runs |
| PdfScan.FindAll | extract_grc_data.py:18 | definition: `re.findall` from a position; characterised by `FindAllEmpty`, `FindAllLeftmost`, `FindAllSound` and `FindAllWellFormed` |
| PdfScan.FindAllAtMatch | extract_grc_data.py:18 | where the pattern matches, `findall` reports that match and continues after it |
| PdfScan.FindAllAtNoMatch | extract_grc_data.py:18 | where the pattern does not match, `findall` moves one character on |
| PdfScan.FindAllWellFormed | extract_grc_data.py:18-20 | every match `findall` reports has that shape |
| PdfScan.FindAllEmpty | extract_grc_data.py:18 | `findall` reports nothing iff the pattern matches at no position |
| PdfScan.FindAllSkips | extract_grc_data.py:18 | positions where nothing matches contribute nothing |
| PdfScan.FindAllLeftmost | extract_grc_data.py:18 | the first reported match is the leftmost one, and the search resumes after its end, so matches do not overlap |
| PdfScan.FindAllSound | extract_grc_data.py:18 | every reported match is the scanner's match at some position of the text |
| PdfScan.ScanText | extract_grc_data.py:18 | scanning the text position by position yields exactly `findall` from the start |
| PdfScan.ToRecord | extract_grc_data.py:20-27 | definition: the record dictionary of one match, its type string and `int()` of each digit group; `DigitsValueOfDecimal` and `LabelLineRecords` characterise the parse |
| PdfScan.LabelLineRecords | extract_grc_data.py:20-27 | the groups `Grc.L`, `1`, `175`, `3235`, `525` become the record (`Grc.L`, 1, 175, 3235, 525) |
| PdfScan.ToRecords | extract_grc_data.py:19-27 | definition: `ToRecord` applied to every match in order; characterised by `DigitsValueOfDecimal`, `DigitsValueAppend`, `PagesRecordsLabelled` and `LabelLineRecords` |
| PdfScan.PageRecords | extract_grc_data.py:14-27 | definition: no records for a page without text, otherwise one per `findall` match; characterised by `PageWithoutText` and `PageRecordsLabelled` |
| PdfScan.PagesRecords | extract_grc_data.py:13-27 | definition: the pages' records joined in page order; characterised by `PagesRecordsAppend` and `ExtractFromPdf` |
| PdfScan.MapSeq | extract_grc_data.py:13-27 | definition: a function applied to every page in order; characterised through `PagesRecords` by `PagesRecordsSnoc` and `PagesRecordsAppend` |
| PdfScan.FlattenAppend | extract_grc_data.py:13-27 | joining the records of two page lists is joining each list's records |
| PdfScan.PagesRecordsSnoc | extract_grc_data.py:13-27 | one more page adds that page's records at the end |
| PdfScan.PagesRecordsAppend | extract_grc_data.py:13-27 | the records of two page lists are the records of the first list followed by those of the second, so records follow page order |
| PdfScan.PageWithoutText | extract_grc_data.py:14-16 | a page whose text is missing or empty contributes no records |
| PdfScan.PageRecordsLabelled | extract_grc_data.py:17-22 | every record of a page has a type label of the pattern's shape |
| PdfScan.PagesRecordsLabelled | extract_grc_data.py:11-27 | every record of the PDF path has a type label of the pattern's shape |
| PdfScan.AppendRecords | extract_grc_data.py:19-27 | the inner loop appends exactly one record per match, in order, to the list built so far |
| PdfScan.ExtractFromPdf | extract_grc_data.py:10-27 | the loop over pages, skipping those without text, yields exactly the records of all pages in page order |
| PdfScan.LabelLineMatch | extract_grc_data.py:17-18 | the pattern matches `Grc.L 1 175 3235 525` at its start, covering the whole line |
| PdfScan.LabelLineFindAll | extract_grc_data.py:17-18 | `findall` on that line reports one match with groups `Grc.L`, `1`, `175`, `3235`, `525` |
| PdfScan.SingleLabelLine | extract_grc_data.py:13-27 | a document whose only page is that line yields the one record (`Grc.L`, 1, 175, 3235, 525) |
| Upload.Extension | extract_grc_data.py:60 | `split('.')[-1]` is the suffix of the name after its last dot, holds no dot, and is the whole name when there is no dot |
| Upload.ExtensionAfterDot | extract_grc_data.py:60 | the extension of `base.ext` is `ext` whenever `ext` has no dot |
| Upload.RouteOf | extract_grc_data.py:60-61 | definition: `pdf` as the lower-cased extension chooses the scanner; characterised by `RouteByExtension` |
| Upload.RouteByExtension | extract_grc_data.py:60-61 | a file goes to the PDF scanner iff its extension lower-cases to `pdf` |
| Upload.RecordRow | extract_grc_data.py:21-27 | a record becomes a row of five present cells, its type under `Type` and its count, height, width and depth under the columns of those names, at the positions `Rank` gives them in the canonical order |
| Upload.RecordsTable | extract_grc_data.py:28 | `pd.DataFrame(data)` is empty iff there are no records, and otherwise has the canonical columns and one row per record, in order |
| Upload.ExtractUpload | extract_grc_data.py:59-64 | the script yields the PDF records' frame for a `pdf` extension and the spreadsheet result otherwise |
| Upload.PdfLabelLineTable | extract_grc_data.py:17-28 | a PDF whose only page holds the label line gives a one-row frame with that record |

## Left out

- The Streamlit user interface is not modelled: the title, the uploader, the
  success, warning and error messages and `st.dataframe`
  (extract_grc_data.py:6-8, :52, :66-70). The `st.error` branch is the
  empty-table result.
- `pdfplumber.open` and `page.extract_text` are foreign code. The model takes
  the page texts as input, with `None` for a page from which no text was
  extracted.
- `pd.read_excel`/`pd.read_csv` and the bare `except` fallback between them
  are file I/O. The model takes the loaded table as input: its header labels
  and its rows.
- `str(c)` on non-string column labels is not modelled; labels are strings
  already.
- Sheet.ExtractFromTable: requires the normalised labels to be distinct. When
  a mapped label occurs twice after normalisation, `df[[...]]` selects six or
  more columns and the renaming `extracted.columns = [...]` raises ValueError
  (length mismatch); `SheetResult` would instead build the table from the first
  column with that label. Duplicates among unmapped labels work in pandas, but
  the precondition excludes them too.
- Upload.ExtractUpload: requires, for the spreadsheet route, distinct normalised
  labels, for the same reason, and one cell per column in every row, since the
  loaded table is a data frame.
- Cells are text, integer or missing. Floating-point cells, and the NaN that
  pandas uses for a missing numeric cell, are represented by `Number` with an
  integer value and by `Absent`.
- `Table` has no row index. `dropna()` keeps the source rows' index labels
  (for example 0, 2, …), which `st.dataframe` shows; the model's rows are a
  sequence and carry no such labels.
- Regex `\w` and `\d` are restricted to ASCII. Python's patterns on `str` also
  accept Unicode letters and digits. `\s` and `strip()` use Python's whitespace
  set.
- Text.DigitsValue: does not model the limit CPython (3.11 and later, and
  the security releases of 3.7 to 3.10) puts on `int()` of a string, by
  default 4300 digits. On a page holding a match whose digit run is longer,
  `int()` raises ValueError and `extract_from_pdf` fails; the model returns a
  record with the run's value.
- Text.LowerChar: maps the case pairs of ASCII, Latin-1 Supplement and Latin
  Extended-A, where the Latvian letters are; every other character is left
  unchanged. That includes Latin letters of Latin Extended-B, Latin Extended
  Additional and fullwidth forms, and the Kelvin sign U+212A, which Python
  lower-cases to ASCII `k`: a header `SKAITS` written with U+212A is Count in
  the script but matches no field in the model. U+0130, whose lower-case form
  is two characters, is not lower-cased either.
- General regular-expression semantics (backtracking, other patterns) are not
  modelled. Only the one fixed pattern is, and for it greedy runs are proved
  equivalent to the pattern.
- The script has no Weight field, header-row hint, positional fallback,
  artifact-row filter, numeric validation, mapping overrides, row deletion or
  CSV export; none is modelled.

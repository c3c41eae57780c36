# edn2csv in Dafny

edn2csv reads one EDN value per line from standard input and writes a
tab-separated table to standard output. Every line whose value is a map
becomes one record. The header is the set of all keyword keys seen in any
record, in ascending order. Each record then becomes one row with one field
per column. A field holds the record's value under that keyword, rendered as
text by the EDN printer, or is empty when the record has no such key. A line
that cannot be parsed stops the run with an error that names the line. Keys
that are not keywords are reported on standard error one by one, and their
maps are still kept as records. Values that are not maps are reported with
their line number and skipped. In both cases the run goes on.

The project has four modules:

- `Decimal` (`decimal.dfy`): decimal text of integers, as Rust's `Display`
  writes an `i64` or a `usize`, with a parser that reads it back.
- `Printer` (`printer.dfy`): the EDN value (`Value`, one constructor per
  variant) and the recursive renderer `Render`. The renderer's "is first"
  fold is modelled as `FoldJoin` and proved equal to a plain comma join
  `Join`. `Split` cuts a text at its commas, and it undoes `Join` on any
  non-empty list of parts that hold no comma.
- `Columns` (`columns.dfy`): the `BTreeSet<String>` of column names. It is a
  strictly ascending sequence under `Less`, the code-point order that Rust's
  byte order on UTF-8 strings agrees with. `Insert` and `InsertAll` model
  `insert` and `extend`.
- `Convert` (`convert.dfy`): `run`, split along its two loops.
  - `Ingest` is the loop over input lines. It calls `IngestLine` for each
    well-formed line, and `IngestLine` calls `SortKeys`, the `filter_map`
    over a map's keys.
  - `Emit` writes the header and the rows.
  - `Run` chains the two.

  The methods are proved against specification functions of the input
  prefix: `Records`, `Log`, `ColumnSet` and `WellFormedUpTo`. The predicate
  `Tabulates` says what the whole output table is for a given input.

The input of the model is the parser's outcome for each line
(`LineOutcome`): a parse error, no value (a blank line), or a value. The
output is the table as rows of fields, together with the diagnostics that
`run` writes to standard error (`Diagnostic`), as a returned log in writing
order. A map's entries are a sequence of key/value pairs in the order the
EDN library iterates them.

A tagged value inside a cell renders as everywhere else: `#`, the tag, one
space, the rendered inner value (src/main.rs:98-101).

## Model

| member | source | states |
|---|---|---|
| Printer.RenderInteger | src/main.rs:36 | an integer prints as a non-empty decimal text that starts with `-` exactly when it is negative and reads back to the same integer |
| Decimal.IntToStringRoundTrip | src/main.rs:36 | the decimal text of every integer parses back to it, with a `-` sign exactly for negatives |
| Decimal.ParseNatOfNatToString | src/main.rs:112-120 | the decimal text of every natural number (a `usize` line number or offset) parses back to it |
| Printer.FoldJoinIsJoin | src/main.rs:38-53 | the fold with an "is first" flag writes the parts separated by single commas, with no leading and no trailing comma |
| Printer.SplitJoin | src/main.rs:42-50 | on a non-empty list of parts none of which holds a comma, cutting the joined text at commas gives back the parts |
| Printer.RenderSequences | src/main.rs:38-97 | a list, vector or set prints as `(`, `[` or `#{`, then its element renderings comma-joined, then `)`, `]` or `}`; empty ones print `()`, `[]` and `#{}` |
| Printer.RenderMap | src/main.rs:69-82 | a map prints as `{`, its `key value` renderings comma-joined, then `}`; the empty map prints `{}` |
| Printer.RenderTagged | src/main.rs:98-101 | a tagged value's text starts with `#`; when the tag holds no space, the tag is the text up to the first space and the rest after that space is the rendered inner value |
| Printer.ElementsRecoverable | src/main.rs:38-97 | inside the delimiters of a non-empty list, vector or set, cutting at commas gives exactly the element renderings when none holds a comma, so there is no trailing comma |
| Printer.EntriesRecoverable | src/main.rs:69-82 | inside the braces of a non-empty map, cutting at commas gives exactly the `key value` renderings when none holds a comma |
| Columns.Insert | src/main.rs:158 | inserting a name into the ascending unique column sequence keeps it strictly ascending, adds exactly that name, and grows it by one only when the name was absent |
| Columns.InsertAll | src/main.rs:158 | extending the column set with names keeps it strictly ascending and makes its elements the old ones plus the new names |
| Columns.StrictlySortedDistinct | src/main.rs:132 | a strictly ascending column sequence holds every name once |
| Columns.SortedUnique | src/main.rs:170-178 | two strictly ascending sequences with the same names are equal, so the iteration order of the set is fixed by its contents |
| Convert.KeywordNamesExact | src/main.rs:147-156 | a name is among a map's column names exactly when the map has that keyword as a key |
| Convert.SkippedKeysExact | src/main.rs:147-156 | the column names and the reports together number exactly the map's entries; each report names a key of the map that is not a keyword |
| Convert.SkippedKeyReported | src/main.rs:149-154 | each key that is not a keyword is reported exactly as many times as it occurs among the map's keys, so once in a map with unique keys |
| Convert.SortKeys | src/main.rs:147-156 | the loop over a map's keys collects the keyword names and the reports of the other keys, both in entry order |
| Convert.IngestLine | src/main.rs:145-162 | a map is kept as a record with its keyword names as columns; any other value is kept nowhere and reported with its line number; a blank line does nothing |
| Convert.WellFormedUpToAll | src/main.rs:139-144 | the recursive "no malformed line before n" predicate holds exactly when no line before n fails to parse |
| Convert.Ingest | src/main.rs:131-164 | on the first malformed line, returns its 0-based number and the parser's error after the reports of the lines before it; otherwise returns every map in line order, the column set as a strictly ascending sequence whose elements are all keyword keys of the records, and all reports |
| Convert.ColumnSetStep | src/main.rs:158-159 | adding a record adds exactly its keyword names to the column set |
| Convert.ColumnSetLine | src/main.rs:145-162 | one more line grows the column set by that line's keyword names: none when it is not a map |
| Convert.ColumnSetExact | src/main.rs:147-159 | a name is a column exactly when some record has that keyword as a key |
| Convert.RecordsAreTheMaps | src/main.rs:145-160 | a map is a record exactly when some parsed line holds it, including maps whose keys are not all keywords |
| Convert.RecordsAppend | src/main.rs:135-164 | the records of two batches of lines are those of the first batch followed by those of the second |
| Convert.NonMapLineIgnored | src/main.rs:161 | removing a line that is not a map, or a blank line, leaves the records unchanged |
| Convert.NonMapReportedOnce | src/main.rs:161 | every line whose value is not a map is reported exactly once by its number, and no other line is reported that way |
| Convert.Lookup | src/main.rs:182-184 | the lookup finds nothing exactly when no entry has the key, and otherwise returns the value of an entry with that key |
| Convert.CellContents | src/main.rs:180-190 | a field is empty when the record lacks the keyword, and is the rendered value when the record has it once |
| Convert.Emit | src/main.rs:166-192 | writes the columns as the header, then one row per record in record order, each with one field per column in column order |
| Convert.Run | src/main.rs:128-194 | fails exactly when some line is malformed, naming the first one; otherwise the table has a strictly ascending header equal to the union of keyword keys, and one row per map in line order |
| Convert.TabulationUnique | src/main.rs:166-192 | the output table for a given input is unique, whatever order the keys were met in |
| Convert.TwoMapsExample | src/main.rs:128-194 | the lines `{:a 1 :b 2}` and `{:a 3}` give the header `a b` and the rows `1 2` and `3` with an empty field |
| Convert.VectorLineExample | src/main.rs:161 | a single line holding `[1 2 3]` gives an empty header, no rows, and one report for line 0 |
| Convert.ErrorTextNamesLine | src/main.rs:112-120 | the parse error text starts with the line number, which reads back from the digits before the first space, and ends with a space |
| Convert.NonMapTextNamesLine | src/main.rs:161 | the report for a non-map line ends with the line number, which reads back from the text |

## Left out

- Reading standard input line by line, and the I/O error `line?` can raise: the input is the sequence of per-line parser outcomes.
- The EDN parser: each line arrives as its outcome (an error with offsets and message, no value, or a value).
- The csv writer: tab delimiter, quoting and record terminators. The output is the table as rows of fields, and write errors are not modelled.
- Float formatting: a float carries the text Rust's formatting gives it, and the renderer writes that text.
- Integer width: the EDN library's integers are 64-bit; the model uses unbounded integers, and the decimal text is the same within that range.
- Map and set order: the EDN library's iteration order is taken as the given order of entries and elements.
- Convert.Lookup: returns the first entry with the key; a `BTreeMap` has unique keys, so this is its `get`, but the model does not require uniqueness.
- `main` and the process exit codes, and the `error: ` prefix it writes before a parse error.
- Standard error: the diagnostics are returned as a log in writing order; their text is given by `DiagnosticText`.

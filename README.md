# gram CSV loader and script helpers, modelled in Dafny

gram draws charts from data that a Lua script loads from CSV files. This
project models two parts of it:

- `src/gram_csv_lib.c`, the CSV library:
  - its byte-level tokenizer, `read_quoted` and `read_line`;
  - the loader `gram_csv_load_csv` and the process-wide statics it shares
    with the tokenizer (`line_count`, `IS_EOF`, `__errbuf`);
  - `get_file_name`;
  - the C header emitter `gram_csv_write_header_file`, with its
    identifier sanitisers `sanitize_guard` and `sanitize_header`.
- From `src/loadfns.c`, the helpers the Lua glue uses:
  - `stolower`;
  - the colour table and `find_predefined_color`, and `is_color`, which
    parses colour names and `#rrggbb` strings;
  - `find_dir_prefix` and the join that makes a CSV path relative to the
    script (`l_load_csv`, lines 318-321).

## Layout

Each source procedure appears twice: as a specification function over
values, and as an imperative method proved equal to that function. One
part departs from the code on purpose: the column storage of the loader
grows every column, where the source grows only the column being written
(see Findings). `CsvLoadSpec.LoadTable`, `GramCsvLib.CsvLib.FillColumns`
and `ColumnStorage.ColumnStore` store with that corrected growth; the
`AsWritten*` members of ColumnStorage model the source's own growth.

- `ctype.dfy` (CType): the `<ctype.h>` classifiers and case maps in the
  "C" locale, and `CStr`, the string a NUL-terminated buffer denotes.
- `csv_tokenizer.dfy` (CsvTokenizer): the tokenizer over the file's bytes
  and a read position.
  - `QuotedStep` and `LineStep` are one loop iteration each;
    `ReadQuotedFrom` and `ReadLineFrom` run the loops.
  - There are lemmas on unescaping, unreachable errors, and
    comma-splitting of plain lines.
- `column_storage.dfy` (ColumnStorage): the column-major storage of the
  loader.
  - `ColumnsOf` is the reference definition.
  - `ColumnStore` is a class over `array<real>` columns that grow in
    place.
  - There is also a model of the source's shared-capacity growth, for the
    finding below.
- `csv_load_spec.dfy` (CsvLoadSpec): the loader as functions threading the
  statics, modelled as a `LibState` value.
- `gram_csv_lib.dfy` (GramCsvLib): the library as classes.
  - `Stream` is the `FILE*`: `fgetc`, `ungetc`.
  - `CsvLib` holds the statics as fields. Its methods `ReadQuoted`,
    `ReadLine`, `ReadHeaders`, `FillColumns`, `LoadTable`, `LoadFile` and
    `LoadCsv` are proved to compute the CsvLoadSpec functions.
- `record_loops.dfy` (RecordLoops): the header and data loops over any
  sequence of records, blank ones included.
  - Blank data records are skipped.
  - The final line is a row whether or not a line break ends it.
  - The header record is the first record with a field.
  - The first non-blank record of the wrong field count stops the load
    with GRAMCSV_ERR_IRREGULAR_FIELD_NUMBER.
- `csv_roundtrip.dfy` (CsvRoundTrip): an independent encoder that quotes
  every field and ends every record with LF.
  - The round trip: loading the encoding of a table gives back that table,
    stored column by column.
  - Behaviours of the shared state:
    - a read error in the header record is skipped;
    - with a stale message, every later load that reaches its data loop
      fails with GRAMCSV_ERR_READ_LINE, and one that succeeds has no rows
      (a header record ending at EOF skips the data loop, so that load
      succeeds);
    - a stale `IS_EOF` makes a file look empty;
    - the order of the numbers in the field-count message.
- `header_emit.dfy` (HeaderEmit): the sanitisers as functions and methods,
  and the text of the emitted header as a function. `WriteHeaderFile` is
  proved to produce exactly that text.
- `loadfns.dfy` (LoadFns): `stolower`, the colour table, `is_color`
  (including `strtol` with base 16), `find_dir_prefix` and the path join.

Where the C code and its documentation disagree, the model follows the
code:

- **Closing quote at end of file.** A closing quote directly followed by
  end of file is "Improper usage of quote" (`read_quoted` accepts only a
  comma, LF or CR after it), even though a final record may otherwise end
  at end of file (`CsvRoundTrip.ClosingQuoteAtEofRejected`).
- **Quote inside a field.** `read_line` compares `buf > 0`, a pointer
  comparison, where `buf_p > 0` is meant. The branch before it already
  handles `buf_p == 0`, so the model's `else if c == QUOTE` behaves the
  same.
- **Field-count message.** The message prints the line count where it
  announces the field count, and the field count where it announces the
  line (`CsvRoundTrip.MismatchMessageSwapsNumbers`).

## Model

| member | source | states |
|---|---|---|
| CType.ToLower | src/loadfns.c:41 | `tolower` in the "C" locale: upper-case letters move to lower case, everything else is unchanged |
| CType.ToUpper | src/gram_csv_lib.c:313 | `toupper` in the "C" locale: lower-case letters move to upper case, everything else is unchanged |
| CType.IsUpper | src/gram_csv_lib.c:313 | the upper-case letters of the "C" locale, 'A' to 'Z' |
| CType.IsLower | src/gram_csv_lib.c:336 | the lower-case letters of the "C" locale, 'a' to 'z' |
| CType.IsDigit | src/gram_csv_lib.c:310 | the decimal digits '0' to '9' |
| CType.IsAlnum | src/gram_csv_lib.c:310 | `isalnum` in the "C" locale: a letter of either case or a digit |
| CType.IsSpace | src/gram_csv_lib.c:333 | `isspace` in the "C" locale: space, and tab to carriage return |
| CType.IsHexDigit | src/loadfns.c:193 | the digits strtol accepts in base 16: decimal digits and 'a' to 'f' in either case |
| CType.CStr | src/gram_csv_lib.c:300 | the C string a buffer denotes: the longest prefix without NUL, ended by a NUL or by the end of the buffer |
| CsvTokenizer.QuotedStep | src/gram_csv_lib.c:80-102 | one iteration of read_quoted: it either reads on (the position advances) or stops; a stop with a field is at a comma, LF or CR directly after the closing quote, which is pushed back; "Unclosed quotation" stops only at EOF |
| CsvTokenizer.ReadQuotedFrom | src/gram_csv_lib.c:72-112 | read_quoted never moves the stream back; on success it stops at a comma, LF or CR right after the closing quote; "Unclosed quotation" only at EOF |
| CsvTokenizer.LineStep | src/gram_csv_lib.c:129-205 | one iteration of read_line: it reads on (the position advances) or stops; a stop that consumes nothing is the zero-field record at EOF, and a record ending at EOF leaves the stream at the end |
| CsvTokenizer.ReadLineFrom | src/gram_csv_lib.c:114-217 | read_line never moves back; a call that consumes nothing is a record at EOF, and a record that ends at EOF leaves the stream at the end |
| CsvTokenizer.ReadRecord | src/gram_csv_lib.c:114-217 | one call of read_line: it never moves back and stays within the file; a call at EOF reads the record with no field (the NULL with `*size == 0` that callers skip) and does not move; every other call consumes at least one byte |
| CsvTokenizer.ReadQuotedUnescapes | src/gram_csv_lib.c:72-112 | read_quoted inverts quote doubling: after the opening quote, an escaped string, a closing quote and a terminator give back exactly the string, with the terminator left unread |
| CsvTokenizer.QuoteThenOtherIsImproper | src/gram_csv_lib.c:83-98 | a quote followed by anything but a quote, comma, LF or CR (EOF included) fails with "Improper usage of quote" |
| CsvTokenizer.NoQuoteIsUnclosed | src/gram_csv_lib.c:80-107 | with no quote before EOF, read_quoted runs to EOF and fails with "Unclosed quotation", LF and commas included in the field |
| CsvTokenizer.NeverImproperQuoting | src/gram_csv_lib.c:132-135 | the quoted state is entered only after read_quoted succeeded, so the "Improper quoting in field" branch is dead |
| CsvTokenizer.RecordNeverImproperQuoting | src/gram_csv_lib.c:114-217 | no call of read_line fails with "Improper quoting in field" |
| CsvTokenizer.SplitThenJoin | src/gram_csv_lib.c:153-160 | the reference comma split is undone by joining with commas, and its pieces contain no comma |
| CsvTokenizer.PlainLineSplits | src/gram_csv_lib.c:153-170 | on bytes without quote or CR up to LF or EOF, read_line returns the fields collected so far followed by the comma split of the rest, finishing after the LF |
| CsvTokenizer.PlainEnd | src/gram_csv_lib.c:161-169 | LF or EOF after a byte of the line pushes the pending field and ends the record |
| CsvTokenizer.PlainStep | src/gram_csv_lib.c:153-204 | a plain byte outside quotes either ends a field (comma) or is appended to it |
| CsvTokenizer.PlainRecord | src/gram_csv_lib.c:114-217 | a whole plain line: empty gives a record with no fields (the NULL that blank-line skipping relies on), otherwise the comma split of the line, which joins back to the line; EOF flag and end position exact |
| CsvTokenizer.BareCarriageReturnFails | src/gram_csv_lib.c:142-177 | a CR not directly followed by LF fails with "Line ending not proper CRLF", in and out of the quoted state |
| CsvTokenizer.CrLfEndsLikeLf | src/gram_csv_lib.c:138-186 | CR LF ends the record exactly as a lone LF does, in and out of the quoted state: the same fields, not at EOF, with the stream just after the LF |
| CsvTokenizer.QuotePlacement | src/gram_csv_lib.c:187-203 | a quote after bytes of the field is "Quote start inside of field"; a quote on an empty field hands over to read_quoted and pushes its field unchanged, or fails with its error |
| CsvLoadSpec.DiagnosticOf | src/gram_csv_lib.c:95-199 | every read_line failure leaves a message in `__errbuf` |
| CsvLoadSpec.ReadQuotedStep | src/gram_csv_lib.c:72-112 | on the statics: a field exactly when read_quoted succeeds, with the statics untouched; on NULL only `__errbuf` changes, and it is set |
| CsvLoadSpec.ReadLineStep | src/gram_csv_lib.c:114-217 | a record adds one to `line_count` and sets `IS_EOF` to whether it ended at EOF; a failure leaves both and writes the message with the current `line_count`; fields are empty on failure; a read that consumes nothing is at EOF |
| CsvLoadSpec.HeaderLoop | src/gram_csv_lib.c:230-240 | the header loop ends with a non-empty header record, or with no headers only when `IS_EOF` is set; `line_count` never decreases and a set `__errbuf` stays set; RecordLoops.HeaderLoopAfterBlanks gives its exact result over blank records and a header record |
| CsvLoadSpec.DataLoop | src/gram_csv_lib.c:256-289 | success only at `IS_EOF`; the accepted records extend those before and each has the header's field count; a failure is GRAMCSV_ERR_READ_LINE or GRAMCSV_ERR_IRREGULAR_FIELD_NUMBER with a message set; RecordLoops.DataLoopOverRecords and RecordLoops.DataLoopMismatch give its exact result over blank and matching records, to the end of the file (whether or not a line break ends its last line) or to the first mismatch |
| RecordLoops.NonBlank | src/gram_csv_lib.c:256-266 | the records the data loop keeps: those with a field, in order; none when all are blank, all when none is |
| RecordLoops.NonBlankRectangular | src/gram_csv_lib.c:266-272 | when every non-blank record has `n` fields, the kept records form a table of `n` columns |
| RecordLoops.DataLoopLastRecord | src/gram_csv_lib.c:256-289 | the record read at EOF, blank or of the header's field count, is kept when it has a field and ends the loop with `IS_EOF` set, `line_count` one higher and no message |
| RecordLoops.DataLoopOverRecords | src/gram_csv_lib.c:256-289 | over the rest of the file, every record blank or of the header's field count: the rows accepted are the non-blank records in order, the final line included whether or not a line break ends it (when one does, the record read at EOF is blank); `line_count` grows by one per record read, that final read included; `IS_EOF` is set and no message |
| RecordLoops.DataLoopMismatch | src/gram_csv_lib.c:256-271 | after such records, the first non-blank record whose field count differs stops the loop with GRAMCSV_ERR_IRREGULAR_FIELD_NUMBER and a field-count message at its line |
| RecordLoops.HeaderLoopAfterBlanks | src/gram_csv_lib.c:230-240 | after blank records the header record is the first record with a field, `line_count` counting every record read |
| RecordLoops.LoadSkipsBlankRecords | src/gram_csv_lib.c:219-293 | a whole load over blank lines, a header record and the rest of the file, every record blank or of the header's field count, gives the table of the header's fields and the non-blank records, the final line included whether or not a line break ends it, stored column by column, with `line_count` counting every record read |
| RecordLoops.LoadHeaderAtEof | src/gram_csv_lib.c:230-293 | a header record that is the last line, with no line break after it, gives its fields as headers and a table with no rows, since `IS_EOF` is already set when the data loop starts |
| RecordLoops.NoFinalBreakLoads | src/gram_csv_lib.c:219-293 | `h` LF `1`, whose last line has no line break, loads as one column `h` holding the value of `1`, with `line_count` 2 |
| RecordLoops.LoadAfterBlanks | src/gram_csv_lib.c:219-256 | after blank lines and a header record, a whole load goes on exactly as the data loop and storage from the record after the header, with the line count past the header and the file's name |
| RecordLoops.TableStopsAtMismatch | src/gram_csv_lib.c:256-293 | after the header, the data loop and storage fail with GRAMCSV_ERR_IRREGULAR_FIELD_NUMBER at the first non-blank record of the wrong field count, whatever follows it, with that record's line and field counts in the diagnostic |
| CsvLoadSpec.FileName | src/gram_csv_lib.c:29-42 | get_file_name: the suffix of the path after its last '/' or '\\', containing no separator, the whole path when it has none |
| CsvLoadSpec.FileNameUnique | src/gram_csv_lib.c:29-42 | any suffix free of separators and starting at 0 or after a separator is the file name |
| CsvLoadSpec.LoadTable | src/gram_csv_lib.c:241-292 | a loaded table has the file name and headers given, `header_count == col_count ==` the number of headers, that many columns, each `col_len` long; a failure is GRAMCSV_ERR_IRREGULAR_FIELD_NUMBER or GRAMCSV_ERR_READ_LINE with a message; `line_count` never decreases and a set message stays set |
| CsvLoadSpec.LoadFile | src/gram_csv_lib.c:227-292 | after fopen: a loaded table has at least one header, `header_count == col_count ==` its number of headers and that many columns of `col_len` values; failures are GRAMCSV_ERR_FILE_EMPTY, GRAMCSV_ERR_IRREGULAR_FIELD_NUMBER or GRAMCSV_ERR_READ_LINE and leave a message; `line_count` never decreases and a set message stays set |
| CsvLoadSpec.Load | src/gram_csv_lib.c:219-226 | code GRAMCSV_ERR_COULD_NOT_OPEN_FILE exactly when fopen fails; every failure leaves a message |
| ColumnStorage.FieldValue | src/gram_csv_lib.c:274-278 | a field whose first byte is NUL stores 0.0, any other stores `atof` of the field |
| ColumnStorage.ColumnsOf | src/gram_csv_lib.c:273-286 | one column per header and one value per record in each; value `r` of column `c` is the value of field `c` of record `r` |
| ColumnStorage.ColumnsOfSnoc | src/gram_csv_lib.c:273-286 | accepting one more record appends its field `c` to column `c`, for every column |
| ColumnStorage.ColumnStore.constructor | src/gram_csv_lib.c:248-254 | `n` distinct fresh columns of 16 slots each, all empty, `cbuf_p == 0` |
| ColumnStorage.ColumnStore.Grow | src/gram_csv_lib.c:280-281 | realloc to twice the size keeps the stored values |
| ColumnStorage.ColumnStore.WriteAt | src/gram_csv_lib.c:279-283 | corrected growth (see Findings), which reallocates the column written whenever it is full: afterwards the column written still has room beyond `cbuf_p + 1`, keeps its values and holds `v` at `cbuf_p`; every other column is the same array as before |
| ColumnStorage.ColumnStore.AppendRecord | src/gram_csv_lib.c:273-286 | corrected growth (see Findings): each column gets the value of its field appended, `cbuf_p` advances once, and every column keeps room beyond `cbuf_p` |
| ColumnStorage.ColumnStore.Export | src/gram_csv_lib.c:291 | the columns cut to the `col_len` values stored |
| ColumnStorage.AsWrittenRecord | src/gram_csv_lib.c:279-282 | the source's growth over the columns of one record keeps one capacity per column |
| ColumnStorage.AsWrittenAfter | src/gram_csv_lib.c:279-282 | the shared `cbuf_sz` and the capacities of the `n` columns after `p` records, one per column |
| ColumnStorage.AsWrittenWriteFits | src/gram_csv_lib.c:279-283 | the write `columns[i][cbuf_p]` of record `p` is in bounds: `p` is below column `i`'s capacity after that record |
| ColumnStorage.AsWrittenRecordRest | src/gram_csv_lib.c:279-282 | within one record, after column 0 has doubled the shared `cbuf_sz`, no later column is grown |
| ColumnStorage.AsWrittenShape | src/gram_csv_lib.c:250-282 | after `p` records the source's column 0 has `cbuf_sz > p` slots while every other column still has 16 |
| ColumnStorage.AsWrittenOverflow | src/gram_csv_lib.c:279-283 | with two or more columns, record 17 and every later record write beyond the 16 slots of each column but the first |
| ColumnStorage.AsWrittenFitsEarly | src/gram_csv_lib.c:279-283 | the first 16 records are written in bounds |
| GramCsvLib.Stream.constructor | src/gram_csv_lib.c:222 | fopen: the stream holds the file and is at its start |
| GramCsvLib.Stream.Getc | src/gram_csv_lib.c:130 | fgetc: the byte at the position and one step on, or EOF without moving |
| GramCsvLib.Stream.Ungetc | src/gram_csv_lib.c:91 | ungetc of the byte just read: one step back |
| GramCsvLib.CsvLib.constructor | src/gram_csv_lib.c:23-27 | the statics start as 0, 0 and an empty buffer |
| GramCsvLib.CsvLib.ReadQuoted | src/gram_csv_lib.c:72-112 | the loop of read_quoted computes ReadQuotedStep: same field or NULL, same statics, same stream position |
| GramCsvLib.CsvLib.ReadLine | src/gram_csv_lib.c:114-217 | the loop of read_line computes ReadLineStep |
| GramCsvLib.CsvLib.GetFileName | src/gram_csv_lib.c:29-42 | the backward scan returns FileName of the C string |
| GramCsvLib.CsvLib.ReadHeaders | src/gram_csv_lib.c:230-240 | the header loop computes HeaderLoop |
| GramCsvLib.CsvLib.FillColumns | src/gram_csv_lib.c:256-289 | the data loop computes DataLoop: code 0 exactly when it accepts the records, which are then stored column by column as ColumnsOf says; otherwise the code of DataLoop |
| GramCsvLib.CsvLib.LoadTable | src/gram_csv_lib.c:241-292 | allocating, filling and exporting the columns computes CsvLoadSpec.LoadTable |
| GramCsvLib.CsvLib.LoadFile | src/gram_csv_lib.c:227-292 | computes CsvLoadSpec.LoadFile |
| GramCsvLib.CsvLib.LoadCsv | src/gram_csv_lib.c:219-293 | gram_csv_load_csv computes Load, statics included |
| CsvRoundTrip.QuotedFieldStep | src/gram_csv_lib.c:187-197 | a quoted field at the start of a field is pushed unescaped and read_line goes on in the quoted state at its terminator |
| CsvRoundTrip.CommaAfterQuoted | src/gram_csv_lib.c:136-138 | a comma after a quoted field starts the next field |
| CsvRoundTrip.NewlineAfterQuoted | src/gram_csv_lib.c:139-141 | LF after a quoted field ends the record with the fields so far |
| CsvRoundTrip.QuotedThenComma | src/gram_csv_lib.c:136-197 | a quoted field and a comma: read_line continues at the next field with the field pushed |
| CsvRoundTrip.QuotedThenNewline | src/gram_csv_lib.c:139-197 | a quoted field and LF: the record ends with that field, after the LF |
| CsvRoundTrip.QuotedFieldsRead | src/gram_csv_lib.c:114-217 | quoted fields separated by commas and closed by LF read as exactly those fields, after those already collected, ending after the LF |
| CsvRoundTrip.RecordRoundTrip | src/gram_csv_lib.c:114-217 | read_line on an encoded record returns its fields, not at EOF, with the stream right after the record |
| CsvRoundTrip.DataLoopAccepts | src/gram_csv_lib.c:266-286 | a record without message and with the header's field count is accepted and the loop goes on |
| CsvRoundTrip.DataLoopAtEof | src/gram_csv_lib.c:256-265 | the read at EOF counts a line, sets `IS_EOF` and ends the data loop with the rows accepted |
| CsvRoundTrip.DataLoopOverRows | src/gram_csv_lib.c:256-289 | records that read as full rows become exactly those rows, `line_count` growing by one per record plus the read at EOF |
| CsvRoundTrip.EncodedTableReads | src/gram_csv_lib.c:114-217 | an encoded table reads back as its records, one read_line each, then EOF |
| CsvRoundTrip.LoadTableFromRows | src/gram_csv_lib.c:241-292 | once the data loop has accepted `rows`, the table holds the headers and the ColumnsOf columns of `rows` |
| CsvRoundTrip.HeaderFirstRecord | src/gram_csv_lib.c:230-233 | a first record with fields ends the header loop as the header record |
| CsvRoundTrip.LoadFileFromHeader | src/gram_csv_lib.c:227-244 | after the header record the load is LoadTable under get_file_name of the path |
| CsvRoundTrip.LoadOverRows | src/gram_csv_lib.c:219-293 | a file whose first record reads as the headers and whose other records read as full rows loads as that table, with `IS_EOF` set, the buffer empty and `line_count` grown by the records plus two |
| CsvRoundTrip.LoadRoundTrip | src/gram_csv_lib.c:219-293 | loading the encoding of a header record and data records, with no earlier message, gives back the headers and one column per header holding every record's value, in order |
| CsvRoundTrip.BlankLinesHaveNoHeaders | src/gram_csv_lib.c:230-240 | LF bytes alone give no header record: every blank line and the read at EOF are counted and the loop stops at EOF |
| CsvRoundTrip.BlankFileIsEmpty | src/gram_csv_lib.c:230-239 | a file of LF bytes only is GRAMCSV_ERR_FILE_EMPTY with "File was empty" |
| CsvRoundTrip.StaleMessageStopsDataLoop | src/gram_csv_lib.c:259-264 | with `__errbuf` already set, the data loop fails at its first read with GRAMCSV_ERR_READ_LINE unless `IS_EOF` is already set |
| CsvRoundTrip.StaleMessageLoadsNoRows | src/gram_csv_lib.c:256-291 | after any earlier failure, a load that succeeds has no data rows and the message stays |
| CsvRoundTrip.StaleMessageHeaderAtEofLoads | src/gram_csv_lib.c:256-291 | with a stale message, the file `b` (no final LF) still loads: the header record sets `IS_EOF`, the data loop does not run, and the table has one header and no rows |
| CsvRoundTrip.QuoteInsideFieldReads | src/gram_csv_lib.c:198-203 | on `a"b` the first read fails with "Quote start inside of field" after the quote, and the next read returns `b` at EOF |
| CsvRoundTrip.QuoteInsideFieldHeader | src/gram_csv_lib.c:230-240 | the header loop on `a"b` skips the failed record and takes `b` as the header, with the message still set |
| CsvRoundTrip.HeaderErrorIsSkipped | src/gram_csv_lib.c:219-293 | in a fresh process `a"b` loads successfully as one header `b` and no rows, while `__errbuf` keeps the message |
| CsvRoundTrip.NoRowsColumns | src/gram_csv_lib.c:248-254 | a table with no data records has one empty column per header |
| CsvRoundTrip.PlainFileName | src/gram_csv_lib.c:29-42 | a path without separators is its own file name |
| CsvRoundTrip.StaleEofMakesFileEmpty | src/gram_csv_lib.c:230-239 | with `IS_EOF` left set by an earlier load, a file whose first record fails is reported empty |
| CsvRoundTrip.ShortRowReads | src/gram_csv_lib.c:153-170 | `a,b` LF `1` LF reads as the records `a`,`b` and `1` |
| CsvRoundTrip.MismatchMessageSwapsNumbers | src/gram_csv_lib.c:267-271 | with two headers and a one-field second record, the load fails with GRAMCSV_ERR_IRREGULAR_FIELD_NUMBER and a message showing 2 as the field count and 1 as the line: the line count and the field count are exchanged |
| CsvRoundTrip.ClosingQuoteAtEofRejected | src/gram_csv_lib.c:83-98 | `"x"` at EOF is "Improper usage of quote", and the file is then reported empty |
| HeaderEmit.DotIndex | src/gram_csv_lib.c:306-309 | the index of the first '.', or the length when there is none |
| HeaderEmit.Strlen | src/gram_csv_lib.c:300 | `strlen`: the length of the C string |
| HeaderEmit.GuardOf | src/gram_csv_lib.c:296-320 | sanitize_guard: NULL exactly for an empty name or one starting with '.'; otherwise the characters before the first '.', alphanumerics upper-cased, every other one '_' |
| HeaderEmit.HeaderIdent | src/gram_csv_lib.c:321-343 | sanitize_header: NULL exactly for an empty header; otherwise the same length, alphanumerics lower-cased, every other character '_' |
| HeaderEmit.GuardIgnoresExtension | src/gram_csv_lib.c:306-309 | a name, a '.' and any suffix have the guard of the name alone |
| HeaderEmit.GuardIdempotent | src/gram_csv_lib.c:296-320 | a guard sanitises to itself |
| HeaderEmit.HeaderIdentIdempotent | src/gram_csv_lib.c:321-343 | a header identifier sanitises to itself |
| HeaderEmit.HeaderIdentsCollide | src/gram_csv_lib.c:333-337 | "X Y" and "x-y" give the same identifier `x_y`, so the struct would declare one member twice |
| HeaderEmit.DataGuard | src/gram_csv_lib.c:296-320 | "data.csv" has the guard `DATA` |
| HeaderEmit.DottedGuard | src/gram_csv_lib.c:306-314 | "a-b.v2.csv" has the guard `A_B` |
| HeaderEmit.HiddenFileHasNoGuard | src/gram_csv_lib.c:317-318 | ".hidden" has no guard |
| HeaderEmit.Decimal | src/gram_csv_lib.c:366-367 | `%ld` of a count: decimal digits only, a leading '0' only for zero |
| HeaderEmit.DecimalRoundTrip | src/gram_csv_lib.c:366-367 | the printed digits read back as the number |
| HeaderEmit.Guard | src/gram_csv_lib.c:348-349 | the guard used is the sanitised file name, "UNNAMED" when it has none; guard characters only |
| HeaderEmit.HeaderName | src/gram_csv_lib.c:360-361 | the member name printed is the sanitised header, "(null)" for an empty one |
| HeaderEmit.GuardLines | src/gram_csv_lib.c:350-352 | the `#ifndef` and `#define` of `_<guard>_DATASET_H` |
| HeaderEmit.StructHead | src/gram_csv_lib.c:355-357 | the struct `_gram_dataset_<guard>` opened with its two `unsigned long` counts |
| HeaderEmit.DeclLine | src/gram_csv_lib.c:361 | the member `double h<name>[col_len];` of one header |
| HeaderEmit.Counts | src/gram_csv_lib.c:364-367 | the close of the struct, the variable `D<guard>` and its two counts in decimal |
| HeaderEmit.ValueList | src/gram_csv_lib.c:373-378 | each value printed with `%lf`, separated by ", ", with none after the last |
| HeaderEmit.InitBlock | src/gram_csv_lib.c:371-379 | the designated initialiser `.h<name>` of one column and its value list |
| HeaderEmit.Body | src/gram_csv_lib.c:355-380 | the struct head, the members, the counts and the initialisers, in that order |
| HeaderEmit.HeaderText | src/gram_csv_lib.c:345-386 | the guard lines, the body and `Closing`, the constant for lines 381-384 |
| HeaderEmit.DeclLines | src/gram_csv_lib.c:359-363 | one array member per header, in header order |
| HeaderEmit.InitBlocks | src/gram_csv_lib.c:369-380 | one initialiser per header, in header order, each with its own column |
| HeaderEmit.PrintedColumns | src/gram_csv_lib.c:373-374 | each printed column is the first `col_len` values of its column |
| HeaderEmit.LoadedIsPrintable | src/gram_csv_lib.c:241-292 | every table the loader returns has the headers and column lengths the emitter reads |
| HeaderEmit.TextIsGuarded | src/gram_csv_lib.c:350-384 | the text starts with the `#ifndef`/`#define` of `_<GUARD>_DATASET_H` and ends with `#endif` |
| HeaderEmit.DeclarationOfHeader | src/gram_csv_lib.c:359-363 | the struct holds `double h<name>[col_len];` for header `h`, right after the members of the headers before it |
| HeaderEmit.InitializerOfHeader | src/gram_csv_lib.c:369-380 | the initialiser of header `h`, InitBlock's `.h<name> = { <values> },` with the values of its column, stands right after the initialisers before it |
| HeaderEmit.RunsInText | src/gram_csv_lib.c:350-384 | the members and the initialisers appear whole in the text at DeclStart and InitStart, after the guard lines and struct head, and after those and the counts; DeclarationOfHeader and InitializerOfHeader place each header within these runs |
| HeaderEmit.ValuesSplitBack | src/gram_csv_lib.c:373-378 | the printed value list splits back at ", " into the printed values in record order, when no value prints a comma |
| HeaderEmit.SanitizeGuard | src/gram_csv_lib.c:296-320 | the loop over the calloc'd buffer computes GuardOf |
| HeaderEmit.SanitizeHeader | src/gram_csv_lib.c:321-343 | the loop over the calloc'd buffer computes HeaderIdent |
| HeaderEmit.PrintHeader | src/gram_csv_lib.c:360-361 | prints HeaderName |
| HeaderEmit.PrintValues | src/gram_csv_lib.c:373-378 | the value loop prints the first `len` values separated by ", " with none after the last |
| HeaderEmit.PrintDeclaration | src/gram_csv_lib.c:360-362 | prints the member of one header |
| HeaderEmit.PrintInitializer | src/gram_csv_lib.c:370-379 | prints the initialiser of one header |
| HeaderEmit.PrintDeclarations | src/gram_csv_lib.c:359-363 | the declaration loop prints the members of all headers in order |
| HeaderEmit.PrintInitializers | src/gram_csv_lib.c:369-380 | the initialiser loop prints the initialisers of all headers in order |
| HeaderEmit.WriteHeaderFile | src/gram_csv_lib.c:345-386 | gram_csv_write_header_file writes exactly HeaderText: guard lines, struct, counts, initialisers, closing |
| LoadFns.BitOrBits | src/loadfns.c:194-198 | the channel or is bitwise: bit `i` of `x \| y` is set exactly when bit `i` of `x` or of `y` is, negative numbers included |
| LoadFns.BitOfMinusOne | src/loadfns.c:194-198 | every bit of -1 is set, as in two's complement |
| LoadFns.BitOrBound | src/loadfns.c:194-198 | or-ing two numbers in [0, 2^k) stays in [0, 2^k) |
| LoadFns.BitOr | src/loadfns.c:194-198 | or of non-negatives is at least each operand; or with a negative is negative |
| LoadFns.GramColor.constructor | include/gram.h:8-10 | a zeroed colour |
| LoadFns.GramColor.OrHex | src/loadfns.c:194-199 | the colour becomes OredColor of its old value and the number |
| LoadFns.GramColor.Set | src/loadfns.c:50 | `*c = color` |
| LoadFns.OredColor | src/loadfns.c:194-199 | the number or-ed into blue, its bits from 8 up into green and from 16 up into red, alpha 255 |
| LoadFns.OrChannels | src/loadfns.c:194-199 | the three `\|=` with the two `>>= 8` between them and `a = 255` compute OredColor |
| LoadFns.Predefined | src/loadfns.c:46-55 | find_predefined_color's search of the C string through the whole table `PredefinedColors` (lines 22-30) |
| LoadFns.PredefinedFrom | src/loadfns.c:46-55 | a colour exactly when some entry from `i` on has that name, and then the colour of such an entry |
| LoadFns.PredefinedNames | src/loadfns.c:22-30 | exactly the seven names match, spelled exactly, each giving its colour of include/gram.h |
| LoadFns.PredefinedIsCaseSensitive | src/loadfns.c:49 | "Red" is not a table name |
| LoadFns.Lowered | src/loadfns.c:36-44 | stolower: the C string's length, character `i` is `tolower` of character `i`, no NUL |
| LoadFns.LoweredIdempotent | src/loadfns.c:36-44 | lowering is idempotent and the result is its own C string |
| LoadFns.SpaceSpan | src/loadfns.c:193 | the white space strtol skips first: the longest prefix of `isspace` characters |
| LoadFns.HexSpan | src/loadfns.c:193 | the digits strtol reads: the longest prefix of hexadecimal digits |
| LoadFns.DropHexPrefix | src/loadfns.c:193 | what is left after an optional "0x" or "0X" is a suffix of the string |
| LoadFns.Strtol16 | src/loadfns.c:193 | on a string of hexadecimal digits, their value; in magnitude always below 16 to the length |
| LoadFns.StrtolNegative | src/loadfns.c:193 | '-' followed by digits reads as their value negated |
| LoadFns.StrtolHexPrefix | src/loadfns.c:193 | "0x" followed by digits reads as their value |
| LoadFns.ParseColor | src/loadfns.c:181-203 | is_color: a table name after lowering gives its colour; otherwise a length other than 7 fails; a length of 7 succeeds with alpha 255 |
| LoadFns.HexColorOf | src/loadfns.c:188-199 | a 7-character non-name gives OredColor of the old colour and strtol of its characters from the second on |
| LoadFns.ParseHexColor | src/loadfns.c:193-199 | six digits after the first character give OredColor of their value |
| LoadFns.HexColorOnBlack | src/loadfns.c:193-199 | `#rrggbb` on a zeroed colour gives red `rr`, green `rrgg` and blue `rrggbb`, alpha 255: only the low eight bits of green and blue are their own pair |
| LoadFns.MinusOneSetsAllBits | src/loadfns.c:193-199 | a number read as -1 (as from `#-00001`) sets every bit of every channel of a zeroed colour |
| LoadFns.ColorNamesIgnoreCase | src/loadfns.c:183-187 | a colour name in any case is found, because the string is lowered first |
| LoadFns.FirstCharacterUnchecked | src/loadfns.c:188-193 | the first of seven characters is never checked: any character there acts as '#' |
| LoadFns.StoLower | src/loadfns.c:36-44 | the loop over the calloc'd buffer computes Lowered |
| LoadFns.FindPredefinedColor | src/loadfns.c:46-55 | returns 1 exactly when the name is in the table, then writes its colour; otherwise leaves the colour |
| LoadFns.IsColor | src/loadfns.c:181-203 | returns 1 exactly when ParseColor succeeds and then holds its colour; otherwise the colour is untouched |
| LoadFns.LastSlash | src/loadfns.c:305-313 | the last '/' of a string: no '/' after it, and None exactly when there is no '/' at all |
| LoadFns.DirPrefix | src/loadfns.c:305-313 | find_dir_prefix: the index of the last '/', 0 when there is none |
| LoadFns.LeadingSlashLooksLikeNone | src/loadfns.c:305-313 | "/d.csv" and "d.csv" get the same prefix 0 |
| LoadFns.FindDirPrefix | src/loadfns.c:305-313 | the backward scan computes DirPrefix |
| LoadFns.RelPath | src/loadfns.c:318-321 | the joined string is `dir_prefix + 1 + strlen(lpath)` bytes long, the whole calloc'd buffer, so no NUL ends it |
| LoadFns.ScriptRelativePath | src/loadfns.c:318-321 | the intended join: the script's directory, up to and including its last '/', then the CSV path, or the CSV path alone |
| LoadFns.RelPathWithDirectory | src/loadfns.c:318-321 | with a '/' in the script path the join is the intended one |
| LoadFns.RelPathKeepsFirstByte | src/loadfns.c:318-321 | without one, "config.lua" and "d.csv" give "cd.csv" where "d.csv" is meant |
| LoadFns.BuildRelPath | src/loadfns.c:318-321 | the calloc and the two memcpy calls produce RelPath |

## Findings

| source | as written | input that shows it | evidently intended | confidence | as-written member | corrected member |
|---|---|---|---|---|---|---|
| src/gram_csv_lib.c:279-283 | one capacity `cbuf_sz` is shared by all columns, but only the column being written when it fills is reallocated, so only column 0 ever grows | a file with two headers and 17 data records: the 17th writes `columns[1][16]` past its 16 slots | every column grows with `cbuf_sz` | high; not executed | ColumnStorage.AsWrittenOverflow | ColumnStorage.ColumnStore.AppendRecord |
| src/loadfns.c:318-321 | `dir_prefix + 1` bytes of the script path are copied, and find_dir_prefix returns 0 both for no '/' and for a '/' at index 0 | script "config.lua", CSV "d.csv": the path opened is "cd.csv" | the CSV path relative to the script's directory: "d.csv" | high; not executed | LoadFns.RelPathKeepsFirstByte | LoadFns.ScriptRelativePath |

## Left out

- File I/O. `fopen` of the CSV file is a parameter: its content, or None when it fails. The header file is modelled as the text written to it. `fclose` and the missing `fclose` on the error returns (lines 262-263 and 270-271) are not modelled.
- Memory management: `calloc`, `realloc` failures, `free`, `line_free`, `gram_csv_csv_file_free` and the leaks on error paths. The growable buffers of read_quoted and read_line (BUF_PUSH) are sequences, since their capacity never affects the result.
- CsvLoadSpec.LoadTable, GramCsvLib.CsvLib.FillColumns, ColumnStorage.ColumnStore.WriteAt, ColumnStorage.ColumnStore.AppendRecord: store with the corrected growth, every full column reallocated. The source's growth of one shared `cbuf_sz`, which overflows every column but the first, is modelled separately by the `AsWritten*` members (see Findings).
- `double` values are `real`: there is no NaN, no infinity and no negative zero. Nothing in the model inspects a value: they come from the `atof` parameter and go to the `fmt` parameter unchanged.
- ColumnStorage.FieldValue: `atof` is a parameter, a call into the C library.
- HeaderEmit.WriteHeaderFile: `%lf` is a parameter `fmt`; the C library's formatting of doubles is not modelled.
- HeaderEmit.HeaderName: printing NULL as "(null)" follows glibc; other C libraries may crash there.
- HeaderEmit.WriteHeaderFile: `free(guard)` at line 383 frees the string literal "UNNAMED" when the file has no guard. Freeing is not modelled. Freeing a string literal is undefined behaviour: with glibc the program typically aborts before `#endif` is written, and buffered output may be lost. For a file with no guard, `HeaderText` is therefore the text the code evidently intends, not what the program writes.
- The unchecked `fopen` of the header file (line 347) is not modelled.
- CsvLoadSpec.DiagnosticOf: messages keep their kind and the line numbers they print. The column offsets (`line_len`, `start`) are not modelled. Neither is the exact text, which SET_ERR's `#FMT` also wraps in quote characters.
- GramCsvLib.CsvLib.GetFileName: allocates one byte too few for `strcpy` (line 39). The result is modelled, the overflow is not.
- LoadFns.RelPath: the joined buffer has no terminating NUL, and `fopen` would read past it. The model takes the bytes written; what `fopen` then sees is not modelled.
- LoadFns.Strtol16: models base 16 on strings of at most six characters, where no overflow is possible. Leading white space, a sign and a "0x" prefix are modelled; locale-specific digits are not.
- LoadFns.GramColor: channels are unbounded integers. Every value stored is a table constant or an or of numbers whose magnitude is below 2^24, so the conversion of the `long` result to `int` never changes it. How the drawing code narrows channels to bytes is not part of this model.
- Bytes of 128 and above: `isalnum`, `toupper` and `tolower` receive a `char` that may be negative, which is undefined in C. The model treats such characters as neither letters nor digits.
- NULL arguments to sanitize_guard and sanitize_header: the loader never produces them.
- The rest of `src/loadfns.c`, the Lua bindings (`l_load_csv` beyond lines 318-321, the colour scheme, the .so loading), is outside this model, as are `src/main.c` and `src/gram_csv.c`.
- Concurrency: the statics are process-wide, and the model threads them through one sequence of calls.

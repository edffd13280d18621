/** gram_csv_load_csv (src/gram_csv_lib.c:219-293) and the process-wide
    state it shares with read_quoted and read_line, as specification
    functions. The class CsvLib in module GramCsvLib is proved to compute
    exactly these.

    The statics `line_count`, `IS_EOF` and `__errbuf` (lines 23-27) are a
    LibState value threaded through every call: `line_count` only grows,
    `IS_EOF` changes only when read_line returns normally, and `__errbuf`
    is overwritten by every message and never cleared. */
module CsvLoadSpec {
  import opened CType
  import opened Wrappers
  import opened CsvTokenizer
  import opened ColumnStorage

  // Return codes of include/gram_csv.h:6-9
  const ErrCouldNotOpenFile: nat := 1
  const ErrFileEmpty: nat := 2
  const ErrIrregularFieldNumber: nat := 3
  const ErrReadLine: nat := 4

  /** The content of `__errbuf`: the message kind and the numbers that the
      message prints (column offsets are not modelled). `Clear` is the
      empty buffer, `__errbuf[0] == '\0'`. */
  datatype Diagnostic =
    | Clear
    | ImproperQuoteUsage(line: nat)        // "Improper usage of quote"
    | UnclosedQuotation(line: nat)         // "Unclosed quotation"
    | ImproperQuotingInField(line: nat)    // "Improper quoting in field"
    | CrlfMissingLf(line: nat)             // "Line ending not proper CRLF ..."
    | QuoteStartInsideField(line: nat)     // "Quote start inside of field"
    | CouldNotOpen                         // "Could not open file for reading"
    | FileWasEmpty                         // "File was empty"
    /** "Mismatch between the number (%ld) of fields in line (%ld) and the
        number of headers (%ld)", with the three numbers in the order the
        source passes them: the line count, the field count, the header
        count. */
    | FieldCountMismatch(shownCount: nat, shownLine: nat, headerCount: nat)

  /** `line_count`, `IS_EOF`, `__errbuf`. */
  datatype LibState = LibState(lineCount: nat, isEof: bool, errBuf: Diagnostic)

  /** The state of a process that has not called the library yet. */
  const Initial: LibState := LibState(0, false, Clear)

  /** The message SET_ERR writes for a read_line failure; the line number is
      the `line_count` at the time, which counts completed records. */
  function DiagnosticOf(e: LineError, line: nat): (d: Diagnostic)
    ensures d != Clear
  {
    match e
    case ImproperQuote => ImproperQuoteUsage(line)
    case Unclosed => UnclosedQuotation(line)
    case ImproperQuoting => ImproperQuotingInField(line)
    case BadLineEnding => CrlfMissingLf(line)
    case QuoteInField => QuoteStartInsideField(line)
  }

  /** One call of read_quoted (lines 72-112) on the library state: the field
      or NULL, and the stream position after the call. */
  function ReadQuotedStep(s: LibState, data: seq<Byte>, pos: nat): (r: (LibState, Option<string>, nat))
    requires pos <= |data|
    ensures r.1.Some? <==> ReadQuotedField(data, pos).0.QField?
    ensures r.1.Some? ==> r.0 == s && r.1.value == ReadQuotedField(data, pos).0.field
    ensures r.1.None? ==> r.0 == s.(errBuf := r.0.errBuf) && r.0.errBuf != Clear
    ensures r.2 == ReadQuotedField(data, pos).1
  {
    var (q, n) := ReadQuotedField(data, pos);
    match q
    case QField(field) => (s, Some(field), n)
    case QImproperQuote => (s.(errBuf := ImproperQuoteUsage(s.lineCount)), None, n)
    case QUnclosed => (s.(errBuf := UnclosedQuotation(s.lineCount)), None, n)
  }

  /** One call of read_line (lines 114-217) on the library state. A record
      counts a line and sets `IS_EOF` to whether it ended at EOF; a failure
      writes its message and leaves both untouched. The fields are empty
      both for a failure (NULL) and for a record with no field (NULL with
      `*size == 0`). */
  function ReadLineStep(s: LibState, data: seq<Byte>, pos: nat): (r: (LibState, seq<string>, nat))
    requires pos <= |data|
    ensures pos <= r.2 <= |data|
    ensures r.2 == pos ==> r.0.isEof && r.1 == []
    ensures ReadRecord(data, pos).0.Record? ==>
              r.0 == s.(lineCount := s.lineCount + 1, isEof := ReadRecord(data, pos).0.atEof)
              && r.1 == ReadRecord(data, pos).0.fields
    ensures ReadRecord(data, pos).0.LineFail? ==>
              r.0 == s.(errBuf := DiagnosticOf(ReadRecord(data, pos).0.error, s.lineCount)) && r.1 == []
  {
    var (o, n) := ReadRecord(data, pos);
    match o
    case Record(fields, atEof) => (s.(lineCount := s.lineCount + 1, isEof := atEof), fields, n)
    case LineFail(e) => (s.(errBuf := DiagnosticOf(e, s.lineCount)), [], n)
  }

  datatype HeaderOutcome = Headers(fields: seq<string>) | NoHeaders

  /** The header loop (lines 230-240): read records until one has a field;
      a NULL result stops the loop only when `IS_EOF` is set, whether the
      NULL came from a blank record or from an error. */
  function HeaderLoop(s: LibState, data: seq<Byte>, pos: nat): (r: (LibState, HeaderOutcome, nat))
    requires pos <= |data|
    ensures pos <= r.2 <= |data|
    ensures r.1.Headers? ==> |r.1.fields| > 0
    ensures r.1.NoHeaders? ==> r.0.isEof
    ensures r.0.lineCount >= s.lineCount
    ensures s.errBuf != Clear ==> r.0.errBuf != Clear
    decreases |data| - pos
  {
    var (s1, line, p1) := ReadLineStep(s, data, pos);
    if line != [] then (s1, Headers(line), p1)
    else if s1.isEof then (s1, NoHeaders, p1)
    else HeaderLoop(s1, data, p1)
  }

  datatype RowsOutcome = Rows(rows: seq<seq<string>>) | RowsFailed(code: nat)

  /** The data loop (lines 256-289) after `rows` have been accepted: blank
      records are skipped, a message in `__errbuf` (from this read or any
      earlier one) stops with GRAMCSV_ERR_READ_LINE, and a record whose
      field count differs from the header's stops with
      GRAMCSV_ERR_IRREGULAR_FIELD_NUMBER. */
  function DataLoop(s: LibState, data: seq<Byte>, pos: nat, n: nat, rows: seq<seq<string>>): (r: (LibState, RowsOutcome))
    requires pos <= |data|
    ensures r.1.Rows? ==> r.0.isEof
    ensures r.1.Rows? ==> |r.1.rows| >= |rows| && r.1.rows[..|rows|] == rows
    ensures r.1.Rows? ==> forall k :: |rows| <= k < |r.1.rows| ==> |r.1.rows[k]| == n
    ensures r.1.RowsFailed? ==> r.1.code in {ErrReadLine, ErrIrregularFieldNumber} && r.0.errBuf != Clear
    ensures r.0.lineCount >= s.lineCount
    ensures s.errBuf != Clear ==> r.0.errBuf != Clear
    decreases |data| - pos, if s.isEof then 0 else 1
  {
    if s.isEof then (s, Rows(rows))
    else
      var (s1, line, p1) := ReadLineStep(s, data, pos);
      if s1.errBuf != Clear then (s1, RowsFailed(ErrReadLine))
      else if line == [] then DataLoop(s1, data, p1, n, rows)
      else if |line| != n then
        (s1.(errBuf := FieldCountMismatch(s1.lineCount, |line|, n)), RowsFailed(ErrIrregularFieldNumber))
      else DataLoop(s1, data, p1, n, rows + [line])
  }

  /** The fields of `CSVFile` (include/gram_csv.h:11-18) that a load fills. */
  datatype CsvFile = CsvFile(fileName: string, headerCount: nat, headers: seq<string>,
                             colCount: nat, colLen: nat, columns: seq<seq<real>>)

  datatype LoadOutcome = Loaded(csv: CsvFile) | LoadFailed(code: nat)

  /** Path separators get_file_name recognises. */
  predicate IsSeparator(c: char) { c == '/' || c == '\\' }

  /** get_file_name (lines 29-42): the part of the path after its last '/'
      or '\\', the whole path when it has none. */
  function FileName(path: string): (r: string)
    ensures |r| <= |path| && r == path[|path| - |r|..]
    ensures forall i :: 0 <= i < |r| ==> !IsSeparator(r[i])
    ensures |r| < |path| ==> IsSeparator(path[|path| - |r| - 1])
  {
    if path == [] then []
    else if IsSeparator(path[|path| - 1]) then []
    else FileName(path[..|path| - 1]) + [path[|path| - 1]]
  }

  /** The characterisation of FileName determines it: the suffix after
      position `k` is the file name exactly when it has no separator and
      `k` is 0 or follows a separator. */
  lemma FileNameUnique(path: string, k: nat)
    requires k <= |path|
    requires forall i :: k <= i < |path| ==> !IsSeparator(path[i])
    requires k > 0 ==> IsSeparator(path[k - 1])
    ensures FileName(path) == path[k..]
  {
  }

  /** The part of gram_csv_load_csv after the header record `hs` (lines
      241-292): the data loop, then the table with `hs` as headers and the
      accepted records stored column by column. */
  function LoadTable(s: LibState, data: seq<Byte>, pos: nat, name: string, hs: seq<string>,
                     atof: string -> real): (r: (LibState, LoadOutcome))
    requires pos <= |data| && |hs| > 0
    ensures r.1.Loaded? ==>
              var c := r.1.csv;
              && c.fileName == name && c.headers == hs
              && c.headerCount == c.colCount == |hs|
              && |c.columns| == c.colCount
              && (forall i :: 0 <= i < c.colCount ==> |c.columns[i]| == c.colLen)
    ensures r.1.LoadFailed? ==> r.1.code in {ErrIrregularFieldNumber, ErrReadLine} && r.0.errBuf != Clear
    ensures r.0.lineCount >= s.lineCount
    ensures s.errBuf != Clear ==> r.0.errBuf != Clear
  {
    var n := |hs|;
    var (s2, d) := DataLoop(s, data, pos, n, []);
    match d
    case RowsFailed(code) => (s2, LoadFailed(code))
    case Rows(rows) =>
      assert Rectangular(rows, n);
      (s2, Loaded(CsvFile(name, n, hs, n, |rows|, ColumnsOf(rows, n, atof))))
  }

  /** gram_csv_load_csv (lines 227-292) once fopen has opened the file at
      `path`, whose content is `data`. */
  function LoadFile(s: LibState, path: string, data: seq<Byte>, atof: string -> real): (r: (LibState, LoadOutcome))
    ensures r.1.Loaded? ==>
              var c := r.1.csv;
              && c.headerCount == c.colCount == |c.headers| > 0
              && |c.columns| == c.colCount
              && (forall i :: 0 <= i < c.colCount ==> |c.columns[i]| == c.colLen)
    ensures r.1.LoadFailed? ==>
              r.1.code in {ErrFileEmpty, ErrIrregularFieldNumber, ErrReadLine} && r.0.errBuf != Clear
    ensures r.0.lineCount >= s.lineCount
    ensures s.errBuf != Clear ==> r.0.errBuf != Clear
  {
    var header := HeaderLoop(s, data, 0);
    if header.1.NoHeaders? then (header.0.(errBuf := FileWasEmpty), LoadFailed(ErrFileEmpty))
    else LoadTable(header.0, data, header.2, FileName(CStr(path)), header.1.fields, atof)
  }

  /** gram_csv_load_csv (lines 219-293) on the library state. `file` is the
      content of the file at `path`, None when fopen fails; `atof` is the C
      library's conversion. */
  function Load(s: LibState, path: string, file: Option<seq<Byte>>, atof: string -> real): (r: (LibState, LoadOutcome))
    ensures file.None? <==> r.1.LoadFailed? && r.1.code == ErrCouldNotOpenFile
    ensures r.1.LoadFailed? ==> r.0.errBuf != Clear
  {
    match file
    case None => (s.(errBuf := CouldNotOpen), LoadFailed(ErrCouldNotOpenFile))
    case Some(data) => LoadFile(s, path, data, atof)
  }
}

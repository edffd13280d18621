/** The imperative library of src/gram_csv_lib.c: the `FILE*` being read and
    the object holding the statics `line_count`, `IS_EOF` and `__errbuf`
    (lines 23-27), whose methods are read_quoted, read_line,
    get_file_name and gram_csv_load_csv. Every method is proved to compute
    the specification function of the same name in module CsvLoadSpec. */
module GramCsvLib {
  import opened CType
  import opened Wrappers
  import opened CsvTokenizer
  import opened ColumnStorage
  import opened CsvLoadSpec

  /** A file opened for reading: its bytes and the read position. */
  class Stream {
    const data: seq<Byte>
    var pos: nat

    ghost predicate Valid()
      reads this
    {
      pos <= |data|
    }

    /** fopen: the stream is at the start of the file. */
    constructor (content: seq<Byte>)
      ensures Valid() && data == content && pos == 0
    {
      data := content;
      pos := 0;
    }

    /** fgetc (and getc): the next byte, or EOF without moving. */
    method Getc() returns (c: int)
      requires Valid()
      modifies this
      ensures Valid()
      ensures c == Peek(data, old(pos)) && pos == Next(data, old(pos))
    {
      if pos < |data| {
        c := data[pos];
        pos := pos + 1;
      } else {
        c := EOF;
      }
    }

    /** ungetc of the byte just read: the next read returns it again. */
    method Ungetc()
      requires Valid() && pos > 0
      modifies this
      ensures Valid() && pos == old(pos) - 1
    {
      pos := pos - 1;
    }
  }

  class CsvLib {
    var lineCount: nat
    var isEof: bool
    var errBuf: Diagnostic

    function State(): LibState
      reads this
    {
      LibState(lineCount, isEof, errBuf)
    }

    /** The statics at program start: zero, zero and an empty buffer. */
    constructor ()
      ensures State() == Initial
    {
      lineCount := 0;
      isEof := false;
      errBuf := Clear;
    }

    /** read_quoted (lines 72-112), entered just after the opening quote. */
    method ReadQuoted(f: Stream) returns (field: Option<string>)
      requires f.Valid()
      modifies this, f
      ensures f.Valid()
      ensures (State(), field, f.pos) == ReadQuotedStep(old(State()), f.data, old(f.pos))
    {
      ghost var start := f.pos;
      var buf: string := [];
      var closed := false;
      while true
        invariant f.Valid() && State() == old(State())
        invariant ReadQuotedFrom(f.data, f.pos, buf) == ReadQuotedField(f.data, start)
        decreases |f.data| - f.pos
      {
        ghost var p := f.pos;
        var c := f.Getc();
        if c == EOF {
          break;
        }
        if c == QUOTE {
          c := f.Getc();
          if c == QUOTE {
            buf := buf + ['"'];
            continue;
          }
          if c == NEWLINE || c == COMMA || c == CARRIAGERETURN {
            closed := true;
            f.Ungetc();
            assert ReadQuotedFrom(f.data, p, buf) == (QField(buf), f.pos);
            break;
          } else {
            errBuf := ImproperQuoteUsage(lineCount);
            return None;
          }
        } else {
          buf := buf + [c as char];
        }
      }
      if !closed {
        errBuf := UnclosedQuotation(lineCount);
        return None;
      }
      return Some(buf);
    }

    /** read_line (lines 114-217). `started` is true once a byte has been
        read in this call, which is what `line_len-1 > 0` tests when the
        line ends. The result is empty both for NULL and for `*size == 0`. */
    method ReadLine(f: Stream) returns (fields: seq<string>)
      requires f.Valid()
      modifies this, f
      ensures f.Valid()
      ensures (State(), fields, f.pos) == ReadLineStep(old(State()), f.data, old(f.pos))
    {
      ghost var start := f.pos;
      var quoted := false;
      var started := false;
      var buf: string := [];
      var fbuf: seq<string> := [];
      var c: int;
      while true
        invariant f.Valid() && State() == old(State())
        invariant ReadLineFrom(f.data, f.pos, quoted, started, buf, fbuf) == ReadRecord(f.data, start)
        decreases |f.data| - f.pos
      {
        c := f.Getc();
        var earlier := started;
        started := true;
        if quoted && (c != COMMA && c != NEWLINE && c != CARRIAGERETURN && c != EOF) {
          errBuf := ImproperQuotingInField(lineCount);
          return [];
        } else if quoted && c == COMMA {
          quoted := false;
          continue;
        } else if quoted && (c == NEWLINE || c == EOF) {
          quoted := false;
          break;
        } else if quoted && c == CARRIAGERETURN {
          c := f.Getc();
          if c != NEWLINE {
            errBuf := CrlfMissingLf(lineCount);
            return [];
          }
          quoted := false;
          break;
        }
        if c == COMMA {
          fbuf := fbuf + [buf];
          buf := [];
          continue;
        }
        if c == NEWLINE || c == EOF {
          if earlier {
            fbuf := fbuf + [buf];
            buf := [];
          }
          break;
        }
        if c == CARRIAGERETURN {
          c := f.Getc();
          if c != NEWLINE {
            errBuf := CrlfMissingLf(lineCount);
            return [];
          }
          if earlier {
            fbuf := fbuf + [buf];
            buf := [];
          }
          break;
        }
        if c == QUOTE && buf == [] {
          var field := ReadQuoted(f);
          if field.None? {
            return [];
          }
          fbuf := fbuf + [field.value];
          quoted := true;
          continue;
        } else if c == QUOTE {
          errBuf := QuoteStartInsideField(lineCount);
          return [];
        }
        buf := buf + [c as char];
      }
      lineCount := lineCount + 1;
      isEof := c == EOF;
      return fbuf;
    }

    /** get_file_name (lines 29-42): scan back from `strlen(path)` to the
        last separator. */
    static method GetFileName(path: string) returns (name: string)
      ensures name == FileName(CStr(path))
    {
      var len := 0;
      while len < |path| && path[len] != '\0'
        invariant 0 <= len <= |path|
        invariant forall k :: 0 <= k < len ==> path[k] != '\0'
      {
        len := len + 1;
      }
      assert path[..len] == CStr(path);
      var i := len;
      while i >= 1
        invariant 0 <= i <= len
        invariant forall k :: i <= k < len ==> !IsSeparator(path[k])
      {
        var c := path[i - 1];
        if c == '\\' || c == '/' {
          break;
        }
        i := i - 1;
      }
      FileNameUnique(path[..len], i);
      name := path[i..len];
    }

    /** The header loop of gram_csv_load_csv (lines 230-240). */
    method ReadHeaders(f: Stream) returns (h: HeaderOutcome)
      requires f.Valid()
      modifies this, f
      ensures f.Valid()
      ensures (State(), h, f.pos) == HeaderLoop(old(State()), f.data, old(f.pos))
    {
      while true
        invariant f.Valid()
        invariant HeaderLoop(State(), f.data, f.pos) == HeaderLoop(old(State()), f.data, old(f.pos))
        decreases |f.data| - f.pos
      {
        var line := ReadLine(f);
        if line != [] {
          return Headers(line);
        }
        if isEof {
          return NoHeaders;
        }
      }
    }

    /** The data loop of gram_csv_load_csv (lines 256-289): reads records and
        stores each accepted one in `store`; 0 when it reaches EOF, else the
        error code. */
    method FillColumns(f: Stream, store: ColumnStore, atof: string -> real) returns (code: nat)
      requires f.Valid() && store.Valid() && store.len == 0
      requires this !in store.Repr && f !in store.Repr
      requires forall i :: 0 <= i < |store.Contents| ==> store.Contents[i] == []
      modifies this, f, store.Repr
      ensures f.Valid() && store.Valid() && fresh(store.Repr - old(store.Repr))
      ensures |store.cols| == |old(store.cols)|
      ensures var (s, d) := DataLoop(old(State()), f.data, old(f.pos), |store.cols|, []);
              && State() == s
              && (d.Rows? <==> code == 0)
              && (d.RowsFailed? ==> code == d.code)
              && (d.Rows? ==> store.len == |d.rows| && store.Contents == ColumnsOf(d.rows, |store.cols|, atof))
    {
      ghost var start := State();
      ghost var dataStart := f.pos;
      var n := |store.cols|;
      ghost var rows: seq<seq<string>> := [];
      assert store.Contents == ColumnsOf(rows, n, atof);
      while !isEof
        invariant f.Valid()
        invariant store.Valid() && fresh(store.Repr - old(store.Repr)) && |store.cols| == n
        invariant Rectangular(rows, n) && store.Contents == ColumnsOf(rows, n, atof) && store.len == |rows|
        invariant DataLoop(State(), f.data, f.pos, n, rows) == DataLoop(start, f.data, dataStart, n, [])
        decreases |f.data| - f.pos, if isEof then 0 else 1
      {
        ghost var pos0 := f.pos;
        var line: seq<string> := [];
        while line == [] && !isEof
          invariant f.Valid() && f.pos >= pos0
          invariant f.pos > pos0 || isEof || line == []
          invariant line == [] ==>
                      DataLoop(State(), f.data, f.pos, n, rows) == DataLoop(start, f.data, dataStart, n, [])
          invariant line != [] ==> (errBuf == Clear &&
                      DataLoop(start, f.data, dataStart, n, [])
                      == if |line| != n
                         then (State().(errBuf := FieldCountMismatch(lineCount, |line|, n)), RowsFailed(ErrIrregularFieldNumber))
                         else DataLoop(State(), f.data, f.pos, n, rows + [line]))
          decreases |f.data| - f.pos, if isEof then 0 else 1
          modifies this, f
        {
          line := ReadLine(f);
          if errBuf != Clear {
            return ErrReadLine;
          }
        }
        if line != [] {
          if |line| != n {
            errBuf := FieldCountMismatch(lineCount, |line|, n);
            return ErrIrregularFieldNumber;
          }
          store.AppendRecord(line, atof);
          ColumnsOfSnoc(rows, line, n, atof);
          rows := rows + [line];
        }
      }
      return 0;
    }

    /** Lines 241-292 of gram_csv_load_csv: the columns are calloc'd,
        filled in place by the data loop and copied out at the end. */
    method LoadTable(f: Stream, name: string, headers: seq<string>, atof: string -> real) returns (result: LoadOutcome)
      requires f.Valid() && |headers| > 0
      modifies this, f
      ensures (State(), result) == CsvLoadSpec.LoadTable(old(State()), f.data, old(f.pos), name, headers, atof)
    {
      var n := |headers|;
      var store := new ColumnStore(n);
      var code := FillColumns(f, store, atof);
      if code != 0 {
        return LoadFailed(code);
      }
      var columns := store.Export();
      return Loaded(CsvFile(name, n, headers, n, store.len, columns));
    }

    /** gram_csv_load_csv (lines 227-292) after fopen succeeded. */
    method LoadFile(path: string, data: seq<Byte>, atof: string -> real) returns (result: LoadOutcome)
      modifies this
      ensures (State(), result) == CsvLoadSpec.LoadFile(old(State()), path, data, atof)
    {
      var csv := new Stream(data);
      var h := ReadHeaders(csv);
      if h.NoHeaders? {
        errBuf := FileWasEmpty;
        return LoadFailed(ErrFileEmpty);
      }
      // The source computes the name before the header loop and frees it on
      // the FILE_EMPTY exit; get_file_name touches no state, so the order
      // is immaterial.
      var fileName := GetFileName(path);
      result := LoadTable(csv, fileName, h.fields, atof);
    }

    /** gram_csv_load_csv (lines 219-293). `file` is what fopen opens, None
        when it fails. */
    method LoadCsv(path: string, file: Option<seq<Byte>>, atof: string -> real) returns (result: LoadOutcome)
      modifies this
      ensures (State(), result) == Load(old(State()), path, file, atof)
    {
      if file.None? {
        errBuf := CouldNotOpen;
        return LoadFailed(ErrCouldNotOpenFile);
      }
      result := LoadFile(path, file.value, atof);
    }
  }
}

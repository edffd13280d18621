/** What gram_csv_load_csv makes of a file, stated against an independent
    encoder: a table written with every field quoted and every record ended
    by LF loads back as exactly that table. Also the behaviours that follow
    from the process-wide state: blank files, stale messages, a stale
    `IS_EOF`, and the order of the numbers in the field-count message. */
module CsvRoundTrip {
  import opened CType
  import opened Wrappers
  import opened CsvTokenizer
  import opened ColumnStorage
  import opened CsvLoadSpec

  /** Fields that can be written: at least one, each of bytes. */
  predicate Encodable(fields: seq<string>) {
    |fields| > 0 && forall i :: 0 <= i < |fields| ==> IsByteString(fields[i])
  }

  /** The fields of a record, each quoted, separated by commas. */
  function EncodeFields(fields: seq<string>): (bs: seq<Byte>)
    requires Encodable(fields)
    ensures |bs| >= 2
    decreases |fields|
  {
    var rest := fields[1..];
    if |fields| == 1 then Quote(fields[0])
    else
      assert Encodable(rest) by {
        forall i | 0 <= i < |rest| ensures IsByteString(rest[i]) { assert rest[i] == fields[i + 1]; }
      }
      Quote(fields[0]) + [COMMA] + EncodeFields(rest)
  }

  /** A record: its fields and LF. */
  function EncodeRecord(fields: seq<string>): seq<Byte>
    requires Encodable(fields)
  {
    EncodeFields(fields) + [NEWLINE]
  }

  /** Records of `n` writable fields each. */
  predicate EncodableRows(rows: seq<seq<string>>, n: nat) {
    forall r :: 0 <= r < |rows| ==> Encodable(rows[r]) && |rows[r]| == n
  }

  /** The records one after the other. */
  function EncodeTable(rows: seq<seq<string>>, n: nat): seq<Byte>
    requires EncodableRows(rows, n)
    decreases |rows|
  {
    if rows == [] then []
    else
      assert EncodableRows(rows[1..], n) by {
        forall r | 0 <= r < |rows| - 1 ensures Encodable(rows[1..][r]) && |rows[1..][r]| == n {
          assert rows[1..][r] == rows[r + 1];
        }
      }
      EncodeRecord(rows[0]) + EncodeTable(rows[1..], n)
  }

  // The layout lemmas below are stated over arbitrary sequences, so that
  // the index reasoning they need happens away from the encoders.

  /** A slice that is a concatenation: each part lies where it should.
      A plain sequence identity, not a property of the loader; the layout
      lemmas below call it to place the pieces of an encoding. */
  lemma SplitTwo(data: seq<Byte>, pos: nat, a: seq<Byte>, c: seq<Byte>)
    requires pos + |a| + |c| <= |data| && data[pos..pos + |a| + |c|] == a + c
    ensures data[pos..pos + |a|] == a && data[pos + |a|..pos + |a| + |c|] == c
  {
    assert data[pos..pos + |a|] == data[pos..pos + |a| + |c|][..|a|];
    assert data[pos + |a|..pos + |a| + |c|] == data[pos..pos + |a| + |c|][|a|..];
  }

  /** A slice that is `a`, one byte `b`, then `c`. */
  lemma SplitAround(data: seq<Byte>, pos: nat, a: seq<Byte>, b: Byte, c: seq<Byte>)
    requires pos + |a| + 1 + |c| <= |data| && data[pos..pos + |a| + 1 + |c|] == a + [b] + c
    ensures data[pos..pos + |a|] == a && data[pos + |a|] == b
    ensures data[pos + |a| + 1..pos + |a| + 1 + |c|] == c
  {
    SplitTwo(data, pos, a + [b], c);
    SplitTwo(data, pos, a, [b]);
  }

  /** A slice that is `e` between two copies of the byte `b`. */
  lemma SplitEnclosed(data: seq<Byte>, pos: nat, b: Byte, e: seq<Byte>)
    requires pos + |e| + 2 <= |data| && data[pos..pos + |e| + 2] == [b] + e + [b]
    ensures data[pos] == b && data[pos + 1..pos + 1 + |e|] == e && data[pos + 1 + |e|] == b
  {
    SplitAround(data, pos, [b] + e, b, []);
    SplitTwo(data, pos, [b], e);
  }

  /** read_quoted on a quoted field, called after its opening quote, returns
      the field's content and stops after the closing quote. */
  lemma QuotedFieldRead(data: seq<Byte>, pos: nat, f: string)
    requires IsByteString(f)
    requires pos + |Quote(f)| < |data| && data[pos..pos + |Quote(f)|] == Quote(f)
    requires IsFieldEnd(data[pos + |Quote(f)|])
    ensures data[pos] == QUOTE
    ensures ReadQuotedField(data, pos + 1) == (QField(f), pos + |Quote(f)|)
  {
    var e := Escape(f);
    assert |Quote(f)| == |e| + 2;
    SplitEnclosed(data, pos, QUOTE, e);
    ReadQuotedUnescapes(data, pos + 1, f, []);
    assert [] + f == f;
  }

  /** A quoted field at the start of a field: read_quoted returns its
      content and read_line continues in the quoted state at the byte after
      the closing quote. */
  lemma QuotedFieldStep(data: seq<Byte>, pos: nat, f: string, started: bool, acc: seq<string>)
    requires IsByteString(f)
    requires pos + |Quote(f)| < |data| && data[pos..pos + |Quote(f)|] == Quote(f)
    requires IsFieldEnd(data[pos + |Quote(f)|])
    ensures ReadLineFrom(data, pos, false, started, [], acc)
         == ReadLineFrom(data, pos + |Quote(f)|, true, true, [], acc + [f])
  {
    QuotedFieldRead(data, pos, f);
    QuotePlacement(data, pos, started, [], acc);
  }

  /** After a quoted field a comma starts the next field. */
  lemma CommaAfterQuoted(data: seq<Byte>, pos: nat, acc: seq<string>)
    requires pos < |data| && data[pos] == COMMA
    ensures ReadLineFrom(data, pos, true, true, [], acc) == ReadLineFrom(data, pos + 1, false, true, [], acc)
  {
  }

  /** After a quoted field LF ends the record. */
  lemma NewlineAfterQuoted(data: seq<Byte>, pos: nat, acc: seq<string>)
    requires pos < |data| && data[pos] == NEWLINE
    ensures ReadLineFrom(data, pos, true, true, [], acc) == (Record(acc, false), pos + 1)
  {
  }

  /** A quoted field and a comma: read_line goes on with the next field. */
  lemma QuotedThenComma(data: seq<Byte>, pos: nat, f: string, started: bool, acc: seq<string>)
    requires IsByteString(f)
    requires pos + |Quote(f)| < |data| && data[pos..pos + |Quote(f)|] == Quote(f)
    requires data[pos + |Quote(f)|] == COMMA
    ensures ReadLineFrom(data, pos, false, started, [], acc)
         == ReadLineFrom(data, pos + |Quote(f)| + 1, false, true, [], acc + [f])
  {
    QuotedFieldStep(data, pos, f, started, acc);
    CommaAfterQuoted(data, pos + |Quote(f)|, acc + [f]);
  }

  /** A quoted field and LF: the record ends with that field. */
  lemma QuotedThenNewline(data: seq<Byte>, pos: nat, f: string, started: bool, acc: seq<string>)
    requires IsByteString(f)
    requires pos + |Quote(f)| < |data| && data[pos..pos + |Quote(f)|] == Quote(f)
    requires data[pos + |Quote(f)|] == NEWLINE
    ensures ReadLineFrom(data, pos, false, started, [], acc) == (Record(acc + [f], false), pos + |Quote(f)| + 1)
  {
    QuotedFieldStep(data, pos, f, started, acc);
    NewlineAfterQuoted(data, pos + |Quote(f)|, acc + [f]);
  }

  /** Taking the first element off and putting it back. */
  lemma ConsBack<T>(acc: seq<T>, xs: seq<T>)
    requires |xs| > 0
    ensures acc + [xs[0]] + xs[1..] == acc + xs
  {
  }

  /** The first field of an encoding and what follows it. */
  lemma EncodeFieldsHead(fields: seq<string>)
    requires Encodable(fields)
    ensures |fields| == 1 ==> EncodeFields(fields) == Quote(fields[0])
    ensures |fields| > 1 ==>
              Encodable(fields[1..]) && EncodeFields(fields) == Quote(fields[0]) + [COMMA] + EncodeFields(fields[1..])
  {
    if |fields| > 1 {
      var rest := fields[1..];
      assert Encodable(rest) by {
        forall i | 0 <= i < |rest| ensures IsByteString(rest[i]) { assert rest[i] == fields[i + 1]; }
      }
    }
  }

  /** Where an encoded single field lies in `data`: its quoted form, then LF. */
  lemma LastFieldLayout(data: seq<Byte>, pos: nat, fields: seq<string>)
    requires Encodable(fields) && |fields| == 1
    requires pos + |EncodeFields(fields)| < |data|
    requires data[pos..pos + |EncodeFields(fields)|] == EncodeFields(fields)
    requires data[pos + |EncodeFields(fields)|] == NEWLINE
    ensures fields == [fields[0]] && IsByteString(fields[0]) && |Quote(fields[0])| == |EncodeFields(fields)|
    ensures data[pos..pos + |Quote(fields[0])|] == Quote(fields[0])
  {
    EncodeFieldsHead(fields);
  }

  /** Where the parts of encoded fields lie in `data`: the first quoted
      field, a comma, and the encoding of the other fields. */
  lemma FieldsLayout(data: seq<Byte>, pos: nat, fields: seq<string>)
    requires Encodable(fields) && |fields| > 1
    requires pos + |EncodeFields(fields)| < |data|
    requires data[pos..pos + |EncodeFields(fields)|] == EncodeFields(fields)
    ensures IsByteString(fields[0]) && Encodable(fields[1..])
    ensures pos + |Quote(fields[0])| + 1 + |EncodeFields(fields[1..])| == pos + |EncodeFields(fields)|
    ensures data[pos..pos + |Quote(fields[0])|] == Quote(fields[0])
    ensures data[pos + |Quote(fields[0])|] == COMMA
    ensures data[pos + |Quote(fields[0])| + 1..pos + |EncodeFields(fields)|] == EncodeFields(fields[1..])
  {
    EncodeFieldsHead(fields);
    SplitAround(data, pos, Quote(fields[0]), COMMA, EncodeFields(fields[1..]));
  }

  /** read_line on quoted fields separated by commas and ended by LF,
      entered at the start of a field: the record is those fields and the
      stream stops right after the LF. */
  lemma {:induction false} QuotedFieldsRead(data: seq<Byte>, pos: nat, fields: seq<string>,
                                            started: bool, acc: seq<string>)
    requires Encodable(fields)
    requires pos + |EncodeFields(fields)| < |data|
    requires data[pos..pos + |EncodeFields(fields)|] == EncodeFields(fields)
    requires data[pos + |EncodeFields(fields)|] == NEWLINE
    ensures ReadLineFrom(data, pos, false, started, [], acc)
         == (Record(acc + fields, false), pos + |EncodeFields(fields)| + 1)
    decreases |fields|
  {
    if |fields| == 1 {
      LastFieldLayout(data, pos, fields);
      QuotedThenNewline(data, pos, fields[0], started, acc);
    } else {
      FieldsLayout(data, pos, fields);
      var next := pos + |Quote(fields[0])| + 1;
      var stop := next + |EncodeFields(fields[1..])| + 1;
      QuotedFieldsRead(data, next, fields[1..], true, acc + [fields[0]]);
      FirstOfFields(data, pos, fields, started, acc, next, stop);
    }
  }

  /** The step of QuotedFieldsRead: once the fields after the first read
      as a record, so do all of them. */
  lemma FirstOfFields(data: seq<Byte>, pos: nat, fields: seq<string>, started: bool, acc: seq<string>,
                      next: nat, stop: nat)
    requires |fields| > 1 && IsByteString(fields[0])
    requires pos + |Quote(fields[0])| < |data| && data[pos..pos + |Quote(fields[0])|] == Quote(fields[0])
    requires data[pos + |Quote(fields[0])|] == COMMA && next == pos + |Quote(fields[0])| + 1
    requires next <= |data| && ReadLineFrom(data, next, false, true, [], acc + [fields[0]])
                               == (Record(acc + [fields[0]] + fields[1..], false), stop)
    ensures ReadLineFrom(data, pos, false, started, [], acc) == (Record(acc + fields, false), stop)
  {
    QuotedThenComma(data, pos, fields[0], started, acc);
    ConsBack(acc, fields);
  }

  /** read_line on an encoded record returns its fields. */
  lemma RecordRoundTrip(data: seq<Byte>, pos: nat, fields: seq<string>)
    requires Encodable(fields)
    requires pos + |EncodeRecord(fields)| <= |data|
    requires data[pos..pos + |EncodeRecord(fields)|] == EncodeRecord(fields)
    ensures ReadRecord(data, pos) == (Record(fields, false), pos + |EncodeRecord(fields)|)
  {
    SplitAround(data, pos, EncodeFields(fields), NEWLINE, []);
    QuotedFieldsRead(data, pos, fields, false, []);
    assert [] + fields == fields;
  }

  /** One accepted record of the data loop. */
  lemma DataLoopAccepts(s: LibState, data: seq<Byte>, pos: nat, n: nat, rows: seq<seq<string>>,
                        s1: LibState, line: seq<string>, p1: nat)
    requires pos <= |data| && !s.isEof && ReadLineStep(s, data, pos) == (s1, line, p1)
    requires s1.errBuf == Clear && line != [] && |line| == n
    ensures DataLoop(s, data, pos, n, rows) == DataLoop(s1, data, p1, n, rows + [line])
  {
  }

  /** The read at EOF ends the data loop. */
  lemma DataLoopAtEof(s: LibState, data: seq<Byte>, n: nat, rows: seq<seq<string>>)
    requires !s.isEof && s.errBuf == Clear
    ensures DataLoop(s, data, |data|, n, rows) == (s.(lineCount := s.lineCount + 1, isEof := true), Rows(rows))
  {
    assert ReadLineStep(s, data, |data|) == (s.(lineCount := s.lineCount + 1, isEof := true), [], |data|);
  }

  /** Reading records from `pos` gives `rows`, each ended by LF, and then
      EOF. */
  predicate ReadsAsRows(data: seq<Byte>, pos: nat, rows: seq<seq<string>>)
    decreases |rows|
  {
    && pos <= |data|
    && if rows == [] then pos == |data|
       else ReadRecord(data, pos).0 == Record(rows[0], false) && ReadsAsRows(data, ReadRecord(data, pos).1, rows[1..])
  }

  /** Records of `n` fields each, none empty. */
  predicate FullRows(rows: seq<seq<string>>, n: nat) {
    forall k :: 0 <= k < |rows| ==> |rows[k]| == n && rows[k] != []
  }

  /** The data loop over records that read as `rows`: each becomes a row,
      and the read at EOF that ends the loop counts one more line. */
  lemma {:induction false} DataLoopOverRows(s: LibState, data: seq<Byte>, pos: nat, n: nat,
                                            acc: seq<seq<string>>, rows: seq<seq<string>>)
    requires s.errBuf == Clear && !s.isEof
    requires ReadsAsRows(data, pos, rows) && FullRows(rows, n)
    ensures DataLoop(s, data, pos, n, acc)
         == (s.(lineCount := s.lineCount + |rows| + 1, isEof := true), Rows(acc + rows))
    decreases |rows|
  {
    if rows == [] {
      DataLoopAtEof(s, data, n, acc);
      assert acc + rows == acc;
    } else {
      var p1 := ReadRecord(data, pos).1;
      var s1 := s.(lineCount := s.lineCount + 1, isEof := false);
      assert ReadLineStep(s, data, pos) == (s1, rows[0], p1);
      DataLoopAccepts(s, data, pos, n, acc, s1, rows[0], p1);
      assert FullRows(rows[1..], n) by {
        forall k | 0 <= k < |rows| - 1 ensures |rows[1..][k]| == n && rows[1..][k] != [] {
          assert rows[1..][k] == rows[k + 1];
        }
      }
      DataLoopOverRows(s1, data, p1, n, acc + [rows[0]], rows[1..]);
      ConsBack(acc, rows);
    }
  }

  /** An encoded table is its first record followed by the rest. */
  lemma TableHead(data: seq<Byte>, pos: nat, rows: seq<seq<string>>, n: nat)
    requires EncodableRows(rows, n) && rows != []
    requires pos + |EncodeTable(rows, n)| == |data| && data[pos..] == EncodeTable(rows, n)
    ensures Encodable(rows[0]) && |rows[0]| == n && EncodableRows(rows[1..], n)
    ensures pos + |EncodeRecord(rows[0])| <= |data|
    ensures data[pos..pos + |EncodeRecord(rows[0])|] == EncodeRecord(rows[0])
    ensures pos + |EncodeRecord(rows[0])| + |EncodeTable(rows[1..], n)| == |data|
    ensures data[pos + |EncodeRecord(rows[0])|..] == EncodeTable(rows[1..], n)
  {
    var e := EncodeRecord(rows[0]);
    var more := EncodeTable(rows[1..], n);
    assert EncodeTable(rows, n) == e + more;
    assert data[pos..] == data[pos..pos + |e| + |more|];
    SplitTwo(data, pos, e, more);
    assert data[pos + |e|..] == data[pos + |e|..pos + |e| + |more|];
  }

  /** Encoded records read back as themselves, then EOF. */
  lemma {:induction false} EncodedTableReads(data: seq<Byte>, pos: nat, rows: seq<seq<string>>, n: nat)
    requires EncodableRows(rows, n)
    requires pos + |EncodeTable(rows, n)| == |data| && data[pos..] == EncodeTable(rows, n)
    ensures ReadsAsRows(data, pos, rows)
    decreases |rows|
  {
    if rows != [] {
      TableHead(data, pos, rows, n);
      var next := pos + |EncodeRecord(rows[0])|;
      EncodedTableReads(data, next, rows[1..], n);
      RecordThenRows(data, pos, rows, next);
    }
  }

  /** An encoded record followed by records that read as the other rows. */
  lemma RecordThenRows(data: seq<Byte>, pos: nat, rows: seq<seq<string>>, next: nat)
    requires rows != [] && Encodable(rows[0])
    requires next == pos + |EncodeRecord(rows[0])| <= |data|
    requires data[pos..next] == EncodeRecord(rows[0])
    requires ReadsAsRows(data, next, rows[1..])
    ensures ReadsAsRows(data, pos, rows)
  {
    RecordRoundTrip(data, pos, rows[0]);
  }

  /** Writable records of `n` fields are full rows of `n` fields. */
  lemma EncodableRowsAreFull(rows: seq<seq<string>>, n: nat)
    requires EncodableRows(rows, n)
    ensures FullRows(rows, n)
  {
    forall k | 0 <= k < |rows| ensures |rows[k]| == n && rows[k] != [] {
      assert Encodable(rows[k]);
    }
  }

  /** LoadTable once the data loop has succeeded. */
  lemma LoadTableFromRows(s: LibState, data: seq<Byte>, pos: nat, name: string, hs: seq<string>,
                          atof: string -> real, s2: LibState, rows: seq<seq<string>>)
    requires pos <= |data| && |hs| > 0
    requires DataLoop(s, data, pos, |hs|, []) == (s2, Rows(rows))
    ensures Rectangular(rows, |hs|)
    ensures LoadTable(s, data, pos, name, hs, atof)
         == (s2, Loaded(CsvFile(name, |hs|, hs, |hs|, |rows|, ColumnsOf(rows, |hs|, atof))))
  {
  }

  /** A file whose first record reads as `headers` and whose other records
      read as `rows` loads as that table. */
  lemma LoadOverRows(s: LibState, path: string, data: seq<Byte>, headers: seq<string>,
                     rows: seq<seq<string>>, p: nat, atof: string -> real)
    requires s.errBuf == Clear && headers != []
    requires p <= |data| && ReadRecord(data, 0) == (Record(headers, false), p)
    requires ReadsAsRows(data, p, rows) && FullRows(rows, |headers|)
    ensures Rectangular(rows, |headers|)
    ensures Load(s, path, Some(data), atof)
         == (LibState(s.lineCount + |rows| + 2, true, Clear),
             Loaded(CsvFile(FileName(CStr(path)), |headers|, headers, |headers|, |rows|,
                            ColumnsOf(rows, |headers|, atof))))
  {
    var s1 := s.(lineCount := s.lineCount + 1, isEof := false);
    var s2 := LibState(s.lineCount + |rows| + 2, true, Clear);
    HeaderFirstRecord(s, data, headers, p);
    LoadFileFromHeader(s, path, data, atof, s1, headers, p);
    assert s1.(lineCount := s1.lineCount + |rows| + 1, isEof := true) == s2;
    assert [] + rows == rows;
    DataLoopOverRows(s1, data, p, |headers|, [], rows);
    LoadTableFromRows(s1, data, p, FileName(CStr(path)), headers, atof, s2, rows);
  }

  /** A first record with fields is the header record. */
  lemma HeaderFirstRecord(s: LibState, data: seq<Byte>, headers: seq<string>, p: nat)
    requires headers != [] && p <= |data| && ReadRecord(data, 0) == (Record(headers, false), p)
    ensures HeaderLoop(s, data, 0) == (s.(lineCount := s.lineCount + 1, isEof := false), Headers(headers), p)
  {
    assert ReadLineStep(s, data, 0) == (s.(lineCount := s.lineCount + 1, isEof := false), headers, p);
  }

  /** After the header record, the load is LoadTable under the file name. */
  lemma LoadFileFromHeader(s: LibState, path: string, data: seq<Byte>, atof: string -> real,
                           s1: LibState, headers: seq<string>, p: nat)
    requires p <= |data| && headers != []
    requires HeaderLoop(s, data, 0) == (s1, Headers(headers), p)
    ensures Load(s, path, Some(data), atof) == LoadTable(s1, data, p, FileName(CStr(path)), headers, atof)
  {
  }

  /** The round trip of the loader: a file holding an encoded header record
      and encoded data records, loaded while `__errbuf` is empty, gives
      those headers, one column per header and one value per record in
      every column; `IS_EOF` ends set and `line_count` has grown by the
      records plus the final read at EOF. */
  lemma LoadRoundTrip(s: LibState, path: string, headers: seq<string>, rows: seq<seq<string>>,
                      atof: string -> real)
    requires s.errBuf == Clear
    requires Encodable(headers) && EncodableRows(rows, |headers|)
    ensures Rectangular(rows, |headers|)
    ensures Load(s, path, Some(EncodeRecord(headers) + EncodeTable(rows, |headers|)), atof)
         == (LibState(s.lineCount + |rows| + 2, true, Clear),
             Loaded(CsvFile(FileName(CStr(path)), |headers|, headers, |headers|, |rows|,
                            ColumnsOf(rows, |headers|, atof))))
  {
    var h := EncodeRecord(headers);
    var t := EncodeTable(rows, |headers|);
    var data := h + t;
    SplitTwo(data, 0, h, t);
    assert data[|h|..] == data[|h|..|h| + |t|];
    RecordRoundTrip(data, 0, headers);
    EncodedTableReads(data, |h|, rows, |headers|);
    EncodableRowsAreFull(rows, |headers|);
    LoadOverRows(s, path, data, headers, rows, |h|, atof);
  }

  /** A file made only of LF bytes has no header record: the loader reports
      GRAMCSV_ERR_FILE_EMPTY whatever the earlier state, after counting
      every blank line and the read at EOF. */
  lemma {:induction false} BlankLinesHaveNoHeaders(s: LibState, data: seq<Byte>, pos: nat)
    requires pos <= |data|
    requires forall k :: pos <= k < |data| ==> data[k] == NEWLINE
    ensures HeaderLoop(s, data, pos)
         == (s.(lineCount := s.lineCount + |data| - pos + 1, isEof := true), NoHeaders, |data|)
    decreases |data| - pos
  {
    if pos < |data| {
      assert ReadLineStep(s, data, pos) == (s.(lineCount := s.lineCount + 1, isEof := false), [], pos + 1);
      BlankLinesHaveNoHeaders(s.(lineCount := s.lineCount + 1, isEof := false), data, pos + 1);
    }
  }

  lemma BlankFileIsEmpty(s: LibState, path: string, data: seq<Byte>, atof: string -> real)
    requires forall k :: 0 <= k < |data| ==> data[k] == NEWLINE
    ensures Load(s, path, Some(data), atof)
         == (s.(lineCount := s.lineCount + |data| + 1, isEof := true, errBuf := FileWasEmpty),
             LoadFailed(ErrFileEmpty))
  {
    BlankLinesHaveNoHeaders(s, data, 0);
  }

  /** `__errbuf` is never cleared, so after any failure every later load
      that finds a header record and is not yet at EOF stops at its first
      data read with GRAMCSV_ERR_READ_LINE, and a later load that succeeds
      has no data rows. */
  lemma StaleMessageStopsDataLoop(s: LibState, data: seq<Byte>, pos: nat, n: nat, rows: seq<seq<string>>)
    requires pos <= |data| && s.errBuf != Clear
    ensures !s.isEof ==> DataLoop(s, data, pos, n, rows).1 == RowsFailed(ErrReadLine)
    ensures s.isEof ==> DataLoop(s, data, pos, n, rows) == (s, Rows(rows))
  {
  }

  lemma StaleMessageLoadsNoRows(s: LibState, path: string, file: Option<seq<Byte>>, atof: string -> real)
    requires s.errBuf != Clear
    ensures Load(s, path, file, atof).1.Loaded? ==> Load(s, path, file, atof).1.csv.colLen == 0
    ensures Load(s, path, file, atof).0.errBuf != Clear
  {
    if file.Some? {
      var header := HeaderLoop(s, file.value, 0);
      if header.1.Headers? {
        StaleMessageStopsDataLoop(header.0, file.value, header.2, |header.1.fields|, []);
      }
    }
  }

  // ---------------------------------------------------------------------
  // Concrete files
  // ---------------------------------------------------------------------

  /** The bytes `a"b` (no final LF). */
  const QuoteInsideField: seq<Byte> := [97, QUOTE, 98]

  /** The two reads of `a"b`: the quote after `a` fails the first record,
      and the next read starts at `b` and reaches EOF. */
  lemma QuoteInsideFieldReads()
    ensures ReadRecord(QuoteInsideField, 0) == (LineFail(QuoteInField), 2)
    ensures ReadRecord(QuoteInsideField, 2) == (Record(["b"], true), 3)
  {
    var d := QuoteInsideField;
    assert d == [97, 34, 98];
    assert LineStep(d, 0, false, false, [], []) == More(1, false, "a", []);
    assert LineStep(d, 1, false, true, "a", []) == Stop(LineFail(QuoteInField), 2);
    assert ReadLineFrom(d, 1, false, true, "a", []) == (LineFail(QuoteInField), 2);
    assert LineStep(d, 2, false, false, [], []) == More(3, false, "b", []);
    assert LineStep(d, 3, false, true, "b", []) == Stop(Record(["b"], true), 3);
    assert ReadLineFrom(d, 3, false, true, "b", []) == (Record(["b"], true), 3);
  }

  /** In a fresh process the quote inside the first field is reported, but
      the header loop does not stop: it reads on and takes `b` as the only
      header, reaches EOF and returns success with the message still set. */
  lemma HeaderErrorIsSkipped(atof: string -> real)
    ensures Load(Initial, "t.csv", Some(QuoteInsideField), atof)
         == (LibState(1, true, QuoteStartInsideField(0)),
             Loaded(CsvFile("t.csv", 1, ["b"], 1, 0, [[]])))
  {
    var d := QuoteInsideField;
    var s2 := LibState(1, true, QuoteStartInsideField(0));
    QuoteInsideFieldHeader();
    assert DataLoop(s2, d, 3, 1, []) == (s2, Rows([]));
    NoRowsColumns(atof);
    PlainFileName();
    LoadTableFromRows(s2, d, 3, "t.csv", ["b"], atof, s2, []);
    LoadFileFromHeader(Initial, "t.csv", d, atof, s2, ["b"], 3);
  }

  /** The header loop on `a"b` in a fresh process. */
  lemma QuoteInsideFieldHeader()
    ensures HeaderLoop(Initial, QuoteInsideField, 0)
         == (LibState(1, true, QuoteStartInsideField(0)), Headers(["b"]), 3)
  {
    var d := QuoteInsideField;
    QuoteInsideFieldReads();
    var s1 := LibState(0, false, QuoteStartInsideField(0));
    var s2 := LibState(1, true, QuoteStartInsideField(0));
    assert ReadLineStep(Initial, d, 0) == (s1, [], 2);
    assert ReadLineStep(s1, d, 2) == (s2, ["b"], 3);
    assert HeaderLoop(s1, d, 2) == (s2, Headers(["b"]), 3);
  }

  /** A table without data records has one empty column per header. */
  lemma NoRowsColumns(atof: string -> real)
    ensures ColumnsOf([], 1, atof) == [[]]
  {
    var cols := ColumnsOf([], 1, atof);
    assert cols[0] == [];
  }

  /** A path without separators is its own file name. */
  lemma PlainFileName()
    ensures FileName(CStr("t.csv")) == "t.csv"
  {
    var t := "t.csv";
    CStrPrefix(t, |t|);
    assert t[..|t|] == t;
    FileNameUnique(t, 0);
  }

  /** The same file after an earlier load ended with `IS_EOF` set: the
      failed first read leaves `IS_EOF` stale, and the loader reports the
      file as empty. */
  lemma StaleEofMakesFileEmpty(atof: string -> real)
    ensures Load(LibState(4, true, Clear), "t.csv", Some(QuoteInsideField), atof)
         == (LibState(4, true, FileWasEmpty), LoadFailed(ErrFileEmpty))
  {
    QuoteInsideFieldReads();
    var s1 := LibState(4, true, QuoteStartInsideField(4));
    assert ReadLineStep(LibState(4, true, Clear), QuoteInsideField, 0) == (s1, [], 2);
    assert HeaderLoop(LibState(4, true, Clear), QuoteInsideField, 0) == (s1, NoHeaders, 2);
  }

  /** A stale message does not fail every later load: `b` with no final LF
      is a header record at EOF, so the data loop never runs and the load
      succeeds with no rows, the old message still set. */
  lemma StaleMessageHeaderAtEofLoads(atof: string -> real)
    ensures Load(LibState(3, false, FileWasEmpty), "t.csv", Some([98]), atof)
         == (LibState(4, true, FileWasEmpty), Loaded(CsvFile("t.csv", 1, ["b"], 1, 0, [[]])))
  {
    var d: seq<Byte> := [98];
    var s0 := LibState(3, false, FileWasEmpty);
    var s1 := LibState(4, true, FileWasEmpty);
    assert LineStep(d, 0, false, false, [], []) == More(1, false, "b", []);
    assert LineStep(d, 1, false, true, "b", []) == Stop(Record(["b"], true), 1);
    assert ReadRecord(d, 0) == (Record(["b"], true), 1);
    assert HeaderLoop(s0, d, 0) == (s1, Headers(["b"]), 1);
    assert DataLoop(s1, d, 1, 1, []) == (s1, Rows([]));
    NoRowsColumns(atof);
    PlainFileName();
    LoadTableFromRows(s1, d, 1, "t.csv", ["b"], atof, s1, []);
    LoadFileFromHeader(s0, "t.csv", d, atof, s1, ["b"], 1);
  }

  /** The bytes of `a,b` LF `1` LF. */
  const ShortRow: seq<Byte> := [97, COMMA, 98, NEWLINE, 49, NEWLINE]

  /** The two records of ShortRow. */
  lemma ShortRowReads()
    ensures ReadRecord(ShortRow, 0) == (Record(["a", "b"], false), 4)
    ensures ReadRecord(ShortRow, 4) == (Record(["1"], false), 6)
  {
    var d := ShortRow;
    assert d == [97, 44, 98, 10, 49, 10];
    assert ["a"] + ["b"] == ["a", "b"];
    assert LineStep(d, 3, false, true, "b", ["a"]) == Stop(Record(["a", "b"], false), 4);
    assert ReadLineFrom(d, 3, false, true, "b", ["a"]) == (Record(["a", "b"], false), 4);
    assert LineStep(d, 2, false, true, [], ["a"]) == More(3, false, "b", ["a"]);
    assert ReadLineFrom(d, 2, false, true, [], ["a"]) == (Record(["a", "b"], false), 4);
    assert LineStep(d, 1, false, true, "a", []) == More(2, false, [], ["a"]);
    assert ReadLineFrom(d, 1, false, true, "a", []) == (Record(["a", "b"], false), 4);
    assert LineStep(d, 0, false, false, [], []) == More(1, false, "a", []);
    assert [] + ["1"] == ["1"];
    assert LineStep(d, 5, false, true, "1", []) == Stop(Record(["1"], false), 6);
    assert ReadLineFrom(d, 5, false, true, "1", []) == (Record(["1"], false), 6);
    assert LineStep(d, 4, false, false, [], []) == More(5, false, "1", []);
  }

  /** The field-count message of a one-field record on line 2 under two
      headers prints "number (2) of fields in line (1)": the line count
      and the field count are exchanged. */
  lemma MismatchMessageSwapsNumbers(atof: string -> real)
    ensures Load(Initial, "t.csv", Some(ShortRow), atof)
         == (LibState(2, false, FieldCountMismatch(2, 1, 2)), LoadFailed(ErrIrregularFieldNumber))
  {
    var d := ShortRow;
    ShortRowReads();
    var s1 := LibState(1, false, Clear);
    var s2 := LibState(2, false, Clear);
    var s3 := LibState(2, false, FieldCountMismatch(2, 1, 2));
    HeaderFirstRecord(Initial, d, ["a", "b"], 4);
    LoadFileFromHeader(Initial, "t.csv", d, atof, s1, ["a", "b"], 4);
    assert ReadLineStep(s1, d, 4) == (s2, ["1"], 6);
    assert DataLoop(s1, d, 4, 2, []) == (s3, RowsFailed(ErrIrregularFieldNumber));
  }

  /** The bytes `"x"`: one quoted field and EOF. */
  const QuotedAtEof: seq<Byte> := [QUOTE, 120, QUOTE]

  /** RFC 4180 section 2 rule 2 allows the last record to end at EOF, but a
      closing quote directly followed by EOF is "Improper usage of quote";
      the header loop then reads EOF and the file is reported as empty. */
  lemma ClosingQuoteAtEofRejected(atof: string -> real)
    ensures ReadRecord(QuotedAtEof, 0) == (LineFail(ImproperQuote), 3)
    ensures Load(Initial, "t.csv", Some(QuotedAtEof), atof)
         == (LibState(1, true, FileWasEmpty), LoadFailed(ErrFileEmpty))
  {
    var d := QuotedAtEof;
    assert d == [34, 120, 34];
    assert QuotedStep(d, 2, "x") == QStop(QImproperQuote, 3);
    assert ReadQuotedFrom(d, 2, "x") == (QImproperQuote, 3);
    assert QuotedStep(d, 1, []) == QMore(2, "x");
    assert ReadQuotedField(d, 1) == (QImproperQuote, 3);
    assert LineStep(d, 0, false, false, [], []) == Stop(LineFail(ImproperQuote), 3);
    var s1 := LibState(0, false, ImproperQuoteUsage(0));
    var s2 := LibState(1, true, ImproperQuoteUsage(0));
    assert ReadLineStep(Initial, d, 0) == (s1, [], 3);
    assert ReadLineStep(s1, d, 3) == (s2, [], 3);
    assert HeaderLoop(s1, d, 3) == (s2, NoHeaders, 3);
  }
}

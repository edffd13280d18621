/** What the header loop (src/gram_csv_lib.c:230-240) and the data loop
    (lines 256-289) make of any sequence of records, blank ones included:
    the header record is the first record with a field, blank data records
    are skipped, and the first non-blank record whose field count differs
    from the header's stops the load with
    GRAMCSV_ERR_IRREGULAR_FIELD_NUMBER. */
module RecordLoops {
  import opened CType
  import opened Wrappers
  import opened CsvTokenizer
  import opened ColumnStorage
  import opened CsvLoadSpec
  import opened CsvRoundTrip

  /** Reading records from `pos` gives `recs`, each ended by a line break
      (not at EOF), and stops at `end`. A record may have no field: that is
      a blank line. */
  predicate ReadsRecordsTo(data: seq<Byte>, pos: nat, recs: seq<seq<string>>, end: nat)
    decreases |recs|
  {
    && pos <= |data|
    && if recs == [] then pos == end
       else ReadRecord(data, pos).0 == Record(recs[0], false)
            && ReadsRecordsTo(data, ReadRecord(data, pos).1, recs[1..], end)
  }

  /** Reading records from `pos` to the end of the file gives `recs`: all
      but the last ended by a line break, the last read at EOF. The last
      record is blank when the file ends with a line break, and holds the
      fields of the final line when it does not. */
  predicate ReadsToEof(data: seq<Byte>, pos: nat, recs: seq<seq<string>>)
    decreases |recs|
  {
    && pos <= |data| && recs != []
    && if |recs| == 1 then ReadRecord(data, pos).0 == Record(recs[0], true)
       else ReadRecord(data, pos).0 == Record(recs[0], false)
            && ReadsToEof(data, ReadRecord(data, pos).1, recs[1..])
  }

  /** The records that have at least one field, in order. */
  function NonBlank(recs: seq<seq<string>>): (rows: seq<seq<string>>)
    ensures |rows| <= |recs|
    ensures forall k :: 0 <= k < |rows| ==> rows[k] != []
    ensures (forall k :: 0 <= k < |recs| ==> recs[k] == []) ==> rows == []
    ensures (forall k :: 0 <= k < |recs| ==> recs[k] != []) ==> rows == recs
  {
    if recs == [] then []
    else if recs[0] == [] then NonBlank(recs[1..])
    else [recs[0]] + NonBlank(recs[1..])
  }

  /** Every record with a field has `n` of them. */
  predicate Matching(recs: seq<seq<string>>, n: nat) {
    forall k :: 0 <= k < |recs| && recs[k] != [] ==> |recs[k]| == n
  }

  lemma MatchingRest(recs: seq<seq<string>>, n: nat)
    requires recs != [] && Matching(recs, n)
    ensures Matching(recs[1..], n)
  {
    forall k | 0 <= k < |recs| - 1 && recs[1..][k] != [] ensures |recs[1..][k]| == n {
      assert recs[1..][k] == recs[k + 1];
    }
  }

  /** The non-blank records of matching records are the rows of a table. */
  lemma {:induction false} NonBlankRectangular(recs: seq<seq<string>>, n: nat)
    requires Matching(recs, n)
    ensures Rectangular(NonBlank(recs), n)
    decreases |recs|
  {
    if recs != [] {
      MatchingRest(recs, n);
      NonBlankRectangular(recs[1..], n);
    }
  }

  /** The rows accepted so far after the data loop has read `rec`: a blank
      record is skipped, any other is appended. */
  function Keep(acc: seq<seq<string>>, rec: seq<string>): (rows: seq<seq<string>>)
    ensures rows == acc + NonBlank([rec])
  {
    if rec == [] then acc else acc + [rec]
  }

  lemma KeepNonBlank(acc: seq<seq<string>>, recs: seq<seq<string>>)
    requires recs != []
    ensures Keep(acc, recs[0]) + NonBlank(recs[1..]) == acc + NonBlank(recs)
  {
    if recs[0] != [] {
      assert acc + [recs[0]] + NonBlank(recs[1..]) == acc + ([recs[0]] + NonBlank(recs[1..]));
    }
  }

  /** One turn of the data loop over a record, read before EOF, that is
      blank or has the header's field count. */
  lemma DataLoopRecord(s: LibState, data: seq<Byte>, pos: nat, n: nat, acc: seq<seq<string>>,
                       fields: seq<string>, p1: nat)
    requires s.errBuf == Clear && !s.isEof && pos <= |data|
    requires ReadRecord(data, pos) == (Record(fields, false), p1)
    requires fields == [] || |fields| == n
    ensures p1 <= |data|
    ensures DataLoop(s, data, pos, n, acc)
         == DataLoop(s.(lineCount := s.lineCount + 1, isEof := false), data, p1, n, Keep(acc, fields))
  {
    assert ReadLineStep(s, data, pos) == (s.(lineCount := s.lineCount + 1, isEof := false), fields, p1);
  }

  /** The turn of the data loop over a non-blank record of the wrong field
      count is its last. */
  lemma DataLoopStops(s: LibState, data: seq<Byte>, pos: nat, n: nat, acc: seq<seq<string>>)
    requires s.errBuf == Clear && !s.isEof && pos <= |data|
    requires ReadRecord(data, pos).0.Record? && ReadRecord(data, pos).0.fields != []
    requires |ReadRecord(data, pos).0.fields| != n
    ensures var r := ReadRecord(data, pos).0;
            DataLoop(s, data, pos, n, acc)
            == (LibState(s.lineCount + 1, r.atEof, FieldCountMismatch(s.lineCount + 1, |r.fields|, n)),
                RowsFailed(ErrIrregularFieldNumber))
  {
    var r := ReadRecord(data, pos).0;
    assert ReadLineStep(s, data, pos)
        == (s.(lineCount := s.lineCount + 1, isEof := r.atEof), r.fields, ReadRecord(data, pos).1);
  }

  /** The turn of the data loop over the record read at EOF, blank or with
      the header's field count, is its last: the record is kept when it has
      a field, and `IS_EOF` ends the loop. */
  lemma DataLoopLastRecord(s: LibState, data: seq<Byte>, pos: nat, n: nat, acc: seq<seq<string>>,
                           last: seq<string>)
    requires s.errBuf == Clear && !s.isEof && pos <= |data|
    requires ReadRecord(data, pos).0 == Record(last, true)
    requires last == [] || |last| == n
    ensures DataLoop(s, data, pos, n, acc)
         == (s.(lineCount := s.lineCount + 1, isEof := true), Rows(Keep(acc, last)))
  {
    assert ReadLineStep(s, data, pos)
        == (s.(lineCount := s.lineCount + 1, isEof := true), last, ReadRecord(data, pos).1);
  }

  /** The data loop over the rest of the file, whose records are blank or
      have the header's field count: blank records are skipped, the others
      become the rows in order, the final line included whether or not a
      line break ends it, and `line_count` counts every record read, the
      one at EOF included. */
  lemma {:induction false} DataLoopOverRecords(s: LibState, data: seq<Byte>, pos: nat, n: nat,
                                               acc: seq<seq<string>>, recs: seq<seq<string>>)
    requires s.errBuf == Clear && !s.isEof
    requires ReadsToEof(data, pos, recs) && Matching(recs, n)
    ensures DataLoop(s, data, pos, n, acc)
         == (s.(lineCount := s.lineCount + |recs|, isEof := true), Rows(acc + NonBlank(recs)))
    decreases |recs|
  {
    if |recs| == 1 {
      assert recs == [recs[0]];
      DataLoopLastRecord(s, data, pos, n, acc, recs[0]);
    } else {
      var p1 := ReadRecord(data, pos).1;
      DataLoopRecord(s, data, pos, n, acc, recs[0], p1);
      MatchingRest(recs, n);
      DataLoopOverRecords(s.(lineCount := s.lineCount + 1, isEof := false), data, p1, n, Keep(acc, recs[0]), recs[1..]);
      KeepNonBlank(acc, recs);
    }
  }

  /** The first non-blank record whose field count differs from the
      header's, read at `p` after the records `recs`, stops the data loop
      with GRAMCSV_ERR_IRREGULAR_FIELD_NUMBER. Its message shows the line
      count, then the record's field count, then the header count. */
  lemma {:induction false} DataLoopMismatch(s: LibState, data: seq<Byte>, pos: nat, n: nat,
                                            acc: seq<seq<string>>, recs: seq<seq<string>>, p: nat)
    requires s.errBuf == Clear && !s.isEof && p <= |data|
    requires ReadsRecordsTo(data, pos, recs, p) && Matching(recs, n)
    requires ReadRecord(data, p).0.Record? && ReadRecord(data, p).0.fields != []
    requires |ReadRecord(data, p).0.fields| != n
    ensures var r := ReadRecord(data, p).0;
            DataLoop(s, data, pos, n, acc)
            == (LibState(s.lineCount + |recs| + 1, r.atEof,
                         FieldCountMismatch(s.lineCount + |recs| + 1, |r.fields|, n)),
                RowsFailed(ErrIrregularFieldNumber))
    decreases |recs|
  {
    if recs == [] {
      DataLoopStops(s, data, pos, n, acc);
    } else {
      var p1 := ReadRecord(data, pos).1;
      DataLoopRecord(s, data, pos, n, acc, recs[0], p1);
      MatchingRest(recs, n);
      DataLoopMismatch(s.(lineCount := s.lineCount + 1, isEof := false), data, p1, n, Keep(acc, recs[0]), recs[1..], p);
    }
  }

  /** After blank records, the header loop takes the first record with a
      field as the header record. */
  lemma {:induction false} HeaderLoopAfterBlanks(s: LibState, data: seq<Byte>, pos: nat,
                                                 blanks: seq<seq<string>>, p: nat)
    requires p <= |data| && ReadsRecordsTo(data, pos, blanks, p)
    requires forall k :: 0 <= k < |blanks| ==> blanks[k] == []
    requires ReadRecord(data, p).0.Record? && ReadRecord(data, p).0.fields != []
    ensures var r := ReadRecord(data, p).0;
            HeaderLoop(s, data, pos)
            == (s.(lineCount := s.lineCount + |blanks| + 1, isEof := r.atEof), Headers(r.fields), ReadRecord(data, p).1)
    decreases |blanks|
  {
    if blanks == [] {
      var r := ReadRecord(data, p).0;
      assert ReadLineStep(s, data, pos)
          == (s.(lineCount := s.lineCount + 1, isEof := r.atEof), r.fields, ReadRecord(data, p).1);
    } else {
      var s1 := s.(lineCount := s.lineCount + 1, isEof := false);
      assert ReadLineStep(s, data, pos) == (s1, [], ReadRecord(data, pos).1);
      assert forall k :: 0 <= k < |blanks| - 1 ==> blanks[1..][k] == blanks[k + 1];
      HeaderLoopAfterBlanks(s1, data, ReadRecord(data, pos).1, blanks[1..], p);
    }
  }

  /** After blank lines and a header record, the load goes on as the data
      loop and the storage of the rest of the file. */
  lemma LoadAfterBlanks(s: LibState, path: string, data: seq<Byte>, blanks: seq<seq<string>>,
                        p: nat, headers: seq<string>, q: nat, atof: string -> real)
    requires p <= |data|
    requires ReadsRecordsTo(data, 0, blanks, p) && forall k :: 0 <= k < |blanks| ==> blanks[k] == []
    requires headers != [] && ReadRecord(data, p) == (Record(headers, false), q)
    ensures q <= |data|
    ensures Load(s, path, Some(data), atof)
         == LoadTable(s.(lineCount := s.lineCount + |blanks| + 1, isEof := false), data, q,
                      FileName(CStr(path)), headers, atof)
  {
    HeaderLoopAfterBlanks(s, data, 0, blanks, p);
    LoadFileFromHeader(s, path, data, atof, s.(lineCount := s.lineCount + |blanks| + 1, isEof := false), headers, q);
  }

  /** A failed data loop fails the load with its code. */
  lemma LoadTableFails(s: LibState, data: seq<Byte>, pos: nat, name: string, hs: seq<string>,
                       atof: string -> real, s2: LibState, code: nat)
    requires pos <= |data| && |hs| > 0
    requires DataLoop(s, data, pos, |hs|, []) == (s2, RowsFailed(code))
    ensures LoadTable(s, data, pos, name, hs, atof) == (s2, LoadFailed(code))
  {
  }

  /** A whole load over blank lines, a header record and the rest of the
      file, whose records are blank or have the header's field count: the
      table holds the header record's fields as headers and the non-blank
      records as rows, the final line included whether or not a line break
      ends it. */
  lemma LoadSkipsBlankRecords(s: LibState, path: string, data: seq<Byte>, blanks: seq<seq<string>>,
                              p: nat, headers: seq<string>, q: nat, recs: seq<seq<string>>,
                              atof: string -> real)
    requires s.errBuf == Clear && p <= |data|
    requires ReadsRecordsTo(data, 0, blanks, p) && forall k :: 0 <= k < |blanks| ==> blanks[k] == []
    requires headers != [] && ReadRecord(data, p) == (Record(headers, false), q)
    requires ReadsToEof(data, q, recs) && Matching(recs, |headers|)
    ensures Rectangular(NonBlank(recs), |headers|)
    ensures Load(s, path, Some(data), atof)
         == (LibState(s.lineCount + |blanks| + |recs| + 1, true, Clear),
             Loaded(CsvFile(FileName(CStr(path)), |headers|, headers, |headers|, |NonBlank(recs)|,
                            ColumnsOf(NonBlank(recs), |headers|, atof))))
  {
    var s1 := s.(lineCount := s.lineCount + |blanks| + 1, isEof := false);
    var s2 := LibState(s.lineCount + |blanks| + |recs| + 1, true, Clear);
    var rows := NonBlank(recs);
    LoadAfterBlanks(s, path, data, blanks, p, headers, q, atof);
    NonBlankRectangular(recs, |headers|);
    DataLoopOverRecords(s1, data, q, |headers|, [], recs);
    assert s1.(lineCount := s1.lineCount + |recs|, isEof := true) == s2;
    assert [] + rows == rows;
    LoadTableFromRows(s1, data, q, FileName(CStr(path)), headers, atof, s2, rows);
  }

  /** A header record that is the file's last line, with no line break after
      it, gives a table with its fields as headers and no rows: `IS_EOF` is
      already set when the data loop starts. */
  lemma LoadHeaderAtEof(s: LibState, path: string, data: seq<Byte>, blanks: seq<seq<string>>,
                        p: nat, headers: seq<string>, atof: string -> real)
    requires s.errBuf == Clear && p <= |data|
    requires ReadsRecordsTo(data, 0, blanks, p) && forall k :: 0 <= k < |blanks| ==> blanks[k] == []
    requires headers != [] && ReadRecord(data, p).0 == Record(headers, true)
    ensures Load(s, path, Some(data), atof)
         == (LibState(s.lineCount + |blanks| + 1, true, Clear),
             Loaded(CsvFile(FileName(CStr(path)), |headers|, headers, |headers|, 0,
                            ColumnsOf([], |headers|, atof))))
  {
    var s1 := LibState(s.lineCount + |blanks| + 1, true, Clear);
    var q := ReadRecord(data, p).1;
    HeaderLoopAfterBlanks(s, data, 0, blanks, p);
    LoadFileFromHeader(s, path, data, atof, s1, headers, q);
    LoadTableFromRows(s1, data, q, FileName(CStr(path)), headers, atof, s1, []);
  }

  /** The data loop and storage after a header record, over records that are
      blank or have the header's field count and then a record with another
      non-zero field count, fail with GRAMCSV_ERR_IRREGULAR_FIELD_NUMBER and
      a diagnostic naming that record's line and field counts, whatever
      follows it. */
  lemma TableStopsAtMismatch(s: LibState, data: seq<Byte>, q: nat, name: string, headers: seq<string>,
                             recs: seq<seq<string>>, m: nat, atof: string -> real)
    requires s.errBuf == Clear && !s.isEof && q <= |data| && m <= |data| && headers != []
    requires ReadsRecordsTo(data, q, recs, m) && Matching(recs, |headers|)
    requires ReadRecord(data, m).0.Record? && ReadRecord(data, m).0.fields != []
    requires |ReadRecord(data, m).0.fields| != |headers|
    ensures var line := s.lineCount + |recs| + 1;
            LoadTable(s, data, q, name, headers, atof)
            == (LibState(line, ReadRecord(data, m).0.atEof,
                         FieldCountMismatch(line, |ReadRecord(data, m).0.fields|, |headers|)),
                LoadFailed(ErrIrregularFieldNumber))
  {
    var r := ReadRecord(data, m).0;
    var line := s.lineCount + |recs| + 1;
    DataLoopMismatch(s, data, q, |headers|, [], recs, m);
    LoadTableFails(s, data, q, name, headers, atof,
                   LibState(line, r.atEof, FieldCountMismatch(line, |r.fields|, |headers|)),
                   ErrIrregularFieldNumber);
  }

  /** The bytes of `h` LF `1`: a header line and a data line that no line
      break ends. */
  const NoFinalBreak: seq<Byte> := [104, NEWLINE, 49]

  /** The two records of NoFinalBreak; the second is read at EOF. */
  lemma NoFinalBreakReads()
    ensures ReadRecord(NoFinalBreak, 0) == (Record(["h"], false), 2)
    ensures ReadRecord(NoFinalBreak, 2).0 == Record(["1"], true)
  {
    var d := NoFinalBreak;
    assert d == [104, 10, 49];
    assert [] + ["h"] == ["h"] && [] + ["1"] == ["1"];
    assert LineStep(d, 1, false, true, "h", []) == Stop(Record(["h"], false), 2);
    assert ReadLineFrom(d, 1, false, true, "h", []) == (Record(["h"], false), 2);
    assert LineStep(d, 0, false, false, [], []) == More(1, false, "h", []);
    assert LineStep(d, 3, false, true, "1", []) == Stop(Record(["1"], true), 3);
    assert ReadLineFrom(d, 3, false, true, "1", []) == (Record(["1"], true), 3);
    assert LineStep(d, 2, false, false, [], []) == More(3, false, "1", []);
  }

  /** `h` LF `1` loads as one column `h` holding the value of `1`: the final
      line is a row although no line break ends it, and `line_count` ends
      at 2. */
  lemma NoFinalBreakLoads(atof: string -> real)
    ensures Load(Initial, "t.csv", Some(NoFinalBreak), atof)
         == (LibState(2, true, Clear),
             Loaded(CsvFile("t.csv", 1, ["h"], 1, 1, ColumnsOf([["1"]], 1, atof))))
  {
    NoFinalBreakReads();
    PlainFileName();
    assert NonBlank([["1"]]) == [["1"]];
    LoadSkipsBlankRecords(Initial, "t.csv", NoFinalBreak, [], 0, ["h"], 2, [["1"]], atof);
  }
}

/** The byte-level CSV tokenizer of src/gram_csv_lib.c as specification
    functions over the bytes of the input and a read position.

    `read_quoted` and `read_line` consume a `FILE*` with `fgetc`, and
    `read_quoted` pushes one byte back with `ungetc`. Here the whole file is
    `data`, the stream position is `pos`, and a read at `pos == |data|`
    yields EOF without advancing. Each function returns its outcome together
    with the stream position after the call; the imperative methods in
    module GramCsvLib are proved to compute exactly these. */
module CsvTokenizer {
  import opened CType

  const EOF: int := -1
  const QUOTE: int := 34
  const COMMA: int := 44
  const NEWLINE: int := 10
  const CARRIAGERETURN: int := 13

  /** What `fgetc` returns when the stream is at `pos`. */
  function Peek(data: seq<Byte>, pos: nat): int {
    if pos < |data| then data[pos] else EOF
  }

  /** Where the stream is after one `fgetc` at `pos`. */
  function Next(data: seq<Byte>, pos: nat): nat {
    if pos < |data| then pos + 1 else pos
  }

  /** A byte that may legally follow the closing quote of a field. */
  predicate IsFieldEnd(b: int) {
    b == COMMA || b == NEWLINE || b == CARRIAGERETURN
  }

  // ---------------------------------------------------------------------
  // read_quoted (src/gram_csv_lib.c:72-112)
  // ---------------------------------------------------------------------

  /** NULL returns of read_quoted carry one of two messages. */
  datatype QuotedOutcome =
    | QField(field: string)   // the unescaped content
    | QImproperQuote          // "Improper usage of quote"
    | QUnclosed               // "Unclosed quotation"

  /** One iteration of the loop of read_quoted at `pos` with `acc`
      collected: go on at a later position with more collected, or stop.
      The closing quote is consumed and the byte after it is pushed back,
      so on success the stop position is that of the terminating byte. */
  datatype QuotedMove =
    | QMore(pos: nat, acc: string)
    | QStop(outcome: QuotedOutcome, pos: nat)

  function QuotedStep(data: seq<Byte>, pos: nat, acc: string): (m: QuotedMove)
    requires pos <= |data|
    ensures m.QMore? ==> pos < m.pos <= |data|
    ensures m.QStop? ==> pos <= m.pos <= |data|
    ensures m.QStop? && m.outcome.QField? ==>
              pos < m.pos < |data| && IsFieldEnd(data[m.pos]) && data[m.pos - 1] == QUOTE
    ensures m.QStop? && m.outcome.QUnclosed? ==> m.pos == |data|
  {
    if pos == |data| then QStop(QUnclosed, pos)
    else if data[pos] != QUOTE then QMore(pos + 1, acc + [data[pos] as char])
    else
      var c := Peek(data, pos + 1);
      if c == QUOTE then QMore(pos + 2, acc + ['"'])
      else if IsFieldEnd(c) then QStop(QField(acc), pos + 1)
      else QStop(QImproperQuote, Next(data, pos + 1))
  }

  /** read_quoted started with the stream at `pos`, just after the opening
      quote, having already collected `acc`. */
  function ReadQuotedFrom(data: seq<Byte>, pos: nat, acc: string): (r: (QuotedOutcome, nat))
    requires pos <= |data|
    ensures pos <= r.1 <= |data|
    ensures r.0.QField? ==> pos < r.1 < |data| && IsFieldEnd(data[r.1]) && data[r.1 - 1] == QUOTE
    ensures r.0.QUnclosed? ==> r.1 == |data|
    decreases |data| - pos
  {
    match QuotedStep(data, pos, acc)
    case QStop(o, n) => (o, n)
    case QMore(n, a) => ReadQuotedFrom(data, n, a)
  }

  /** One call of read_quoted, right after the opening quote was read. */
  function ReadQuotedField(data: seq<Byte>, pos: nat): (r: (QuotedOutcome, nat))
    requires pos <= |data|
  {
    ReadQuotedFrom(data, pos, [])
  }

  // ---------------------------------------------------------------------
  // read_line (src/gram_csv_lib.c:114-217)
  // ---------------------------------------------------------------------

  /** The conditions under which read_line returns NULL with a message. */
  datatype LineError =
    | ImproperQuote     // from read_quoted: quote followed by another byte
    | Unclosed          // from read_quoted: EOF inside quotes
    | ImproperQuoting   // "Improper quoting in field"
    | BadLineEnding     // "Line ending not proper CRLF"
    | QuoteInField      // "Quote start inside of field"

  /** A record (possibly with zero fields, which read_line reports as NULL
      with `*size == 0`) and whether it ended at EOF, or an error. */
  datatype LineOutcome =
    | Record(fields: seq<string>, atEof: bool)
    | LineFail(error: LineError)

  /** One iteration of the loop of read_line at stream position `pos` in
      machine state `quoted` (a quoted field was just pushed), `started` (a
      byte was read earlier in this call, which is what `line_len-1 > 0`
      tests), the current field buffer `buf` and the fields pushed so far:
      go on in a new state at a later position, or stop with the outcome. */
  datatype LineMove =
    | More(pos: nat, quoted: bool, buf: string, fields: seq<string>)
    | Stop(outcome: LineOutcome, pos: nat)

  function LineStep(data: seq<Byte>, pos: nat, quoted: bool, started: bool,
                    buf: string, fields: seq<string>): (m: LineMove)
    requires pos <= |data|
    ensures m.More? ==> pos < m.pos <= |data|
    ensures m.Stop? ==> pos <= m.pos <= |data|
    ensures m.Stop? && m.pos == pos ==> pos == |data| && m.outcome.Record? && m.outcome.atEof
    ensures m.Stop? && m.outcome.Record? && m.outcome.atEof ==> m.pos == |data|
  {
    var c := Peek(data, pos);
    var p1 := Next(data, pos);
    if quoted && !IsFieldEnd(c) && c != EOF then Stop(LineFail(ImproperQuoting), p1)
    else if quoted && c == COMMA then More(p1, false, buf, fields)
    else if quoted && (c == NEWLINE || c == EOF) then Stop(Record(fields, c == EOF), p1)
    else if quoted then
      // c == CARRIAGERETURN
      if Peek(data, p1) != NEWLINE then Stop(LineFail(BadLineEnding), Next(data, p1))
      else Stop(Record(fields, false), p1 + 1)
    else if c == COMMA then More(p1, false, [], fields + [buf])
    else if c == NEWLINE || c == EOF then
      Stop(Record(if started then fields + [buf] else fields, c == EOF), p1)
    else if c == CARRIAGERETURN then
      if Peek(data, p1) != NEWLINE then Stop(LineFail(BadLineEnding), Next(data, p1))
      else Stop(Record(if started then fields + [buf] else fields, false), p1 + 1)
    else if c == QUOTE && buf == [] then
      var q := ReadQuotedField(data, p1);
      match q.0
      case QField(s) => More(q.1, true, buf, fields + [s])
      case QImproperQuote => Stop(LineFail(ImproperQuote), q.1)
      case QUnclosed => Stop(LineFail(Unclosed), q.1)
    else if c == QUOTE then Stop(LineFail(QuoteInField), p1)
    else More(p1, false, buf + [c as char], fields)
  }

  /** The loop of read_line from `pos` in the given machine state: its
      outcome and the stream position after the call. */
  function ReadLineFrom(data: seq<Byte>, pos: nat, quoted: bool, started: bool,
                        buf: string, fields: seq<string>): (r: (LineOutcome, nat))
    requires pos <= |data|
    ensures pos <= r.1 <= |data|
    ensures r.1 == pos ==> pos == |data| && r.0.Record? && r.0.atEof
    ensures r.0.Record? && r.0.atEof ==> r.1 == |data|
    decreases |data| - pos
  {
    match LineStep(data, pos, quoted, started, buf, fields)
    case Stop(o, n) => (o, n)
    case More(n, q, b, fs) => ReadLineFrom(data, n, q, true, b, fs)
  }

  /** One call of read_line with the stream at `pos`. A call at EOF reads
      the record with no field (the NULL with `*size == 0` that callers skip)
      and does not move; any other call consumes at least one byte. */
  function ReadRecord(data: seq<Byte>, pos: nat): (r: (LineOutcome, nat))
    requires pos <= |data|
    ensures pos <= r.1 <= |data|
    ensures pos == |data| <==> r.1 == pos
    ensures pos == |data| ==> r.0 == Record([], true)
  {
    ReadLineFrom(data, pos, false, false, [], [])
  }

  // ---------------------------------------------------------------------
  // Properties of read_quoted
  // ---------------------------------------------------------------------

  /** Doubling every quote, as RFC 4180 section 2 rule 7 asks. */
  function Escape(s: string): (r: seq<Byte>)
    requires IsByteString(s)
    ensures |r| >= |s|
  {
    if s == [] then []
    else if s[0] == '"' then [QUOTE, QUOTE] + Escape(s[1..])
    else [s[0] as int] + Escape(s[1..])
  }

  /** A field written with quotes: opening quote, escaped content, closing quote. */
  function Quote(s: string): (r: seq<Byte>)
    requires IsByteString(s)
  {
    [QUOTE] + Escape(s) + [QUOTE]
  }

  /** read_quoted undoes Escape: when the bytes after the opening quote are
      the escaped content, a closing quote and a comma, LF or CR, the field
      is the original content and the terminator is left unread. */
  lemma {:induction false} ReadQuotedUnescapes(data: seq<Byte>, pos: nat, s: string, acc: string)
    requires IsByteString(s)
    requires pos + |Escape(s)| + 2 <= |data|
    requires data[pos..pos + |Escape(s)|] == Escape(s)
    requires data[pos + |Escape(s)|] == QUOTE && IsFieldEnd(data[pos + |Escape(s)| + 1])
    ensures ReadQuotedFrom(data, pos, acc) == (QField(acc + s), pos + |Escape(s)| + 1)
    decreases |s|
  {
    if s == [] {
      assert acc + s == acc;
    } else {
      var t := s[1..];
      var e := Escape(s);
      var w := if s[0] == '"' then 2 else 1;
      assert IsByteString(t) by {
        forall i | 0 <= i < |t| ensures t[i] as int < 256 { assert t[i] == s[i + 1]; }
      }
      assert e[w..] == Escape(t);
      SliceDrop(data, pos, e, w);
      assert data[pos] == e[0];
      if s[0] == '"' {
        assert data[pos + 1] == e[1];
        ReadQuotedUnescapes(data, pos + 2, t, acc + ['"']);
        assert acc + ['"'] + t == acc + s;
      } else {
        ReadQuotedUnescapes(data, pos + 1, t, acc + [s[0]]);
        assert acc + [s[0]] + t == acc + s;
      }
    }
  }

  /** Dropping `w` elements from both sides of a slice equation. */
  lemma SliceDrop(data: seq<Byte>, pos: nat, e: seq<Byte>, w: nat)
    requires pos + |e| <= |data| && data[pos..pos + |e|] == e && w <= |e|
    ensures data[pos + w..pos + |e|] == e[w..]
  {
    assert data[pos + w..pos + |e|] == data[pos..pos + |e|][w..];
  }

  /** A closing quote followed by anything but comma, LF or CR, including
      EOF, is the "Improper usage of quote" error. */
  lemma QuoteThenOtherIsImproper(data: seq<Byte>, pos: nat, acc: string)
    requires pos < |data| && data[pos] == QUOTE
    requires Peek(data, pos + 1) != QUOTE && !IsFieldEnd(Peek(data, pos + 1))
    ensures ReadQuotedFrom(data, pos, acc).0 == QImproperQuote
  {
  }

  /** Without a closing quote read_quoted runs to EOF and reports
      "Unclosed quotation"; every byte, including LF and comma, stays part
      of the field until then. */
  lemma {:induction false} NoQuoteIsUnclosed(data: seq<Byte>, pos: nat, acc: string)
    requires pos <= |data|
    requires forall k :: pos <= k < |data| ==> data[k] != QUOTE
    ensures ReadQuotedFrom(data, pos, acc) == (QUnclosed, |data|)
    decreases |data| - pos
  {
    if pos < |data| {
      NoQuoteIsUnclosed(data, pos + 1, acc + [data[pos] as char]);
    }
  }

  // ---------------------------------------------------------------------
  // Properties of read_line
  // ---------------------------------------------------------------------

  /** The "Improper quoting in field" branch is unreachable: read_line is in
      the `quoted` state only right after read_quoted succeeded, and then the
      next byte is always a comma, LF or CR. */
  lemma {:induction false} NeverImproperQuoting(data: seq<Byte>, pos: nat, quoted: bool, started: bool,
                                                buf: string, fields: seq<string>)
    requires pos <= |data|
    requires quoted ==> pos < |data| && IsFieldEnd(data[pos])
    ensures ReadLineFrom(data, pos, quoted, started, buf, fields).0 != LineFail(ImproperQuoting)
    decreases |data| - pos
  {
    var c := Peek(data, pos);
    var p1 := Next(data, pos);
    if quoted {
      if c == COMMA {
        NeverImproperQuoting(data, p1, false, true, buf, fields);
      }
    } else if c == COMMA {
      NeverImproperQuoting(data, p1, false, true, [], fields + [buf]);
    } else if c == NEWLINE || c == EOF || c == CARRIAGERETURN {
    } else if c == QUOTE && buf == [] {
      var (q, n) := ReadQuotedField(data, p1);
      if q.QField? {
        NeverImproperQuoting(data, n, true, true, buf, fields + [q.field]);
      }
    } else if c == QUOTE {
    } else {
      NeverImproperQuoting(data, p1, false, true, buf + [c as char], fields);
    }
  }

  /** Hence no record read ever fails with "Improper quoting in field". */
  lemma RecordNeverImproperQuoting(data: seq<Byte>, pos: nat)
    requires pos <= |data|
    ensures ReadRecord(data, pos).0 != LineFail(ImproperQuoting)
  {
    NeverImproperQuoting(data, pos, false, false, [], []);
  }

  /** Bytes of the record content before its end: no quote, CR or LF. */
  predicate IsPlainByte(b: Byte) {
    b != QUOTE && b != CARRIAGERETURN && b != NEWLINE
  }

  /** The characters of a byte sequence. */
  function Chars(bs: seq<Byte>): (s: string)
    ensures |s| == |bs| && forall i :: 0 <= i < |bs| ==> s[i] == bs[i] as char
  {
    if bs == [] then [] else [bs[0] as char] + Chars(bs[1..])
  }

  /** Splitting text at every comma, the field in progress being `buf`:
      the reference for what read_line does on unquoted text. */
  function SplitCommas(buf: string, s: string): (fields: seq<string>)
    ensures |fields| > 0
    decreases |s|
  {
    if s == [] then [buf]
    else if s[0] == ',' then [buf] + SplitCommas([], s[1..])
    else SplitCommas(buf + [s[0]], s[1..])
  }

  /** Fields joined with commas. */
  function JoinCommas(fields: seq<string>): string
    requires |fields| > 0
  {
    if |fields| == 1 then fields[0] else fields[0] + [','] + JoinCommas(fields[1..])
  }

  /** A string without commas. */
  predicate NoComma(s: string) {
    forall i :: 0 <= i < |s| ==> s[i] != ','
  }

  /** SplitCommas and JoinCommas are inverse: the pieces contain no comma
      and joined with commas they give back the text. */
  lemma {:induction false} SplitThenJoin(buf: string, s: string)
    requires NoComma(buf)
    ensures JoinCommas(SplitCommas(buf, s)) == buf + s
    ensures forall i :: 0 <= i < |SplitCommas(buf, s)| ==> NoComma(SplitCommas(buf, s)[i])
    decreases |s|
  {
    if s == [] {
      assert buf + s == buf;
    } else if s[0] == ',' {
      var rest := SplitCommas([], s[1..]);
      SplitThenJoin([], s[1..]);
      var all := [buf] + rest;
      assert all[1..] == rest;
      assert [] + s[1..] == s[1..];
      assert buf + s == buf + [','] + s[1..];
      assert forall i :: 1 <= i < |all| ==> all[i] == rest[i - 1];
    } else {
      var b := buf + [s[0]];
      assert NoComma(b);
      SplitThenJoin(b, s[1..]);
      assert b + s[1..] == buf + s;
    }
  }

  /** On a line with no quote and no CR, read_line splits at every comma,
      so `a,` gives two fields, the second empty. The line ends at the LF at
      `pos + k`, or at EOF when `pos + k == |data|`. This is the scan from
      the middle of the line; `buf` and `fields` are what it has collected. */
  lemma {:induction false} PlainLineSplits(data: seq<Byte>, pos: nat, k: nat, buf: string, fields: seq<string>)
    requires pos + k <= |data|
    requires forall j :: pos <= j < pos + k ==> IsPlainByte(data[j])
    requires pos + k < |data| ==> data[pos + k] == NEWLINE
    ensures ReadLineFrom(data, pos, false, true, buf, fields)
         == (Record(fields + SplitCommas(buf, Chars(data[pos..pos + k])), pos + k == |data|), Next(data, pos + k))
    decreases k
  {
    if k == 0 {
      PlainEnd(data, pos, buf, fields);
      assert data[pos..pos + k] == [];
    } else {
      PlainStep(data, pos, true, buf, fields);
      SplitFirstByte(data, pos, k, buf, fields);
      if data[pos] == COMMA {
        PlainLineSplits(data, pos + 1, k - 1, [], fields + [buf]);
      } else {
        PlainLineSplits(data, pos + 1, k - 1, buf + [data[pos] as char], fields);
      }
    }
  }

  /** Splitting a run of bytes at commas, one byte at a time: a comma ends
      the field in progress, any other byte extends it. */
  lemma SplitFirstByte(data: seq<Byte>, pos: nat, k: nat, buf: string, fields: seq<string>)
    requires 0 < k && pos + k <= |data|
    ensures data[pos] == COMMA ==>
              fields + [buf] + SplitCommas([], Chars(data[pos + 1..pos + k]))
              == fields + SplitCommas(buf, Chars(data[pos..pos + k]))
    ensures data[pos] != COMMA ==>
              SplitCommas(buf + [data[pos] as char], Chars(data[pos + 1..pos + k]))
              == SplitCommas(buf, Chars(data[pos..pos + k]))
  {
    var text := Chars(data[pos..pos + k]);
    var more := Chars(data[pos + 1..pos + k]);
    assert data[pos + 1..pos + k] == data[pos..pos + k][1..];
    assert text[0] == data[pos] as char && text[1..] == more;
    if data[pos] == COMMA {
      assert SplitCommas(buf, text) == [buf] + SplitCommas([], more);
    }
  }

  /** The end of a plain line: LF or EOF pushes the last buffer. */
  lemma PlainEnd(data: seq<Byte>, pos: nat, buf: string, fields: seq<string>)
    requires pos <= |data| && (pos < |data| ==> data[pos] == NEWLINE)
    ensures ReadLineFrom(data, pos, false, true, buf, fields) == (Record(fields + [buf], pos == |data|), Next(data, pos))
  {
  }

  /** One step of read_line over a plain byte outside quotes. */
  lemma PlainStep(data: seq<Byte>, pos: nat, started: bool, buf: string, fields: seq<string>)
    requires pos < |data| && IsPlainByte(data[pos])
    ensures ReadLineFrom(data, pos, false, started, buf, fields)
         == if data[pos] == COMMA then ReadLineFrom(data, pos + 1, false, true, [], fields + [buf])
            else ReadLineFrom(data, pos + 1, false, true, buf + [data[pos] as char], fields)
  {
  }

  /** read_line on a whole plain line: an empty line is a record with zero
      fields (the NULL result that lets blank lines be skipped); any other
      plain line is split at every comma, the fields contain no comma and
      joined with commas they give back the line. */
  lemma PlainRecord(data: seq<Byte>, pos: nat, k: nat)
    requires pos + k <= |data|
    requires forall j :: pos <= j < pos + k ==> IsPlainByte(data[j])
    requires pos + k < |data| ==> data[pos + k] == NEWLINE
    ensures var (o, n) := ReadRecord(data, pos);
            && o.Record? && o.atEof == (pos + k == |data|) && n == Next(data, pos + k)
            && (k == 0 <==> o.fields == [])
            && (k > 0 ==> o.fields == SplitCommas([], Chars(data[pos..pos + k]))
                          && JoinCommas(o.fields) == Chars(data[pos..pos + k])
                          && forall i :: 0 <= i < |o.fields| ==> NoComma(o.fields[i]))
  {
    if k > 0 {
      var c := data[pos];
      var text := Chars(data[pos..pos + k]);
      var more := Chars(data[pos + 1..pos + k]);
      assert data[pos + 1..pos + k] == data[pos..pos + k][1..];
      assert text[0] == c as char && text[1..] == more;
      PlainStep(data, pos, false, [], []);
      if c == COMMA {
        var first: seq<string> := [[]];
        assert [] + [[]] == first;
        PlainLineSplits(data, pos + 1, k - 1, [], first);
        assert SplitCommas([], text) == first + SplitCommas([], more);
      } else {
        assert [] + [c as char] == [c as char];
        PlainLineSplits(data, pos + 1, k - 1, [c as char], []);
        assert SplitCommas([], text) == SplitCommas([c as char], more);
        assert [] + SplitCommas([c as char], more) == SplitCommas([c as char], more);
      }
      SplitThenJoin([], text);
      assert [] + text == text;
    }
  }

  /** A CR that is not directly followed by LF is always an error, both
      outside quotes and right after a quoted field. */
  lemma BareCarriageReturnFails(data: seq<Byte>, pos: nat, quoted: bool, started: bool,
                                buf: string, fields: seq<string>)
    requires pos < |data| && data[pos] == CARRIAGERETURN && Peek(data, pos + 1) != NEWLINE
    ensures ReadLineFrom(data, pos, quoted, started, buf, fields).0 == LineFail(BadLineEnding)
  {
  }

  /** CR LF ends a record exactly as LF alone does, outside quotes and right
      after a quoted field: the same fields, not at EOF, with the stream
      after the LF in both cases. */
  lemma CrLfEndsLikeLf(data: seq<Byte>, pos: nat, quoted: bool, started: bool,
                       buf: string, fields: seq<string>)
    requires pos + 1 < |data| && data[pos] == CARRIAGERETURN && data[pos + 1] == NEWLINE
    ensures var lf := data[..pos] + [NEWLINE] + data[pos + 2..];
            var crlf := LineStep(data, pos, quoted, started, buf, fields);
            var plain := LineStep(lf, pos, quoted, started, buf, fields);
            crlf.Stop? && plain.Stop? && crlf.outcome == plain.outcome
            && crlf.outcome.Record? && !crlf.outcome.atEof
            && crlf.pos == pos + 2 && plain.pos == pos + 1
  {
    var lf := data[..pos] + [NEWLINE] + data[pos + 2..];
    assert lf[pos] == NEWLINE;
  }

  /** A quote after bytes already collected for the field is "Quote start
      inside of field"; a quote on an empty field buffer hands over to
      read_quoted, whose field is pushed unchanged. */
  lemma QuotePlacement(data: seq<Byte>, pos: nat, started: bool, buf: string, fields: seq<string>)
    requires pos < |data| && data[pos] == QUOTE
    ensures buf != [] ==> ReadLineFrom(data, pos, false, started, buf, fields) == (LineFail(QuoteInField), pos + 1)
    ensures buf == [] ==>
      var (q, n) := ReadQuotedField(data, pos + 1);
      ReadLineFrom(data, pos, false, started, buf, fields)
        == match q
           case QField(s) => ReadLineFrom(data, n, true, true, buf, fields + [s])
           case QImproperQuote => (LineFail(ImproperQuote), n)
           case QUnclosed => (LineFail(Unclosed), n)
  {
  }
}

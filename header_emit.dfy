/** The C header emitter of src/gram_csv_lib.c: the identifier sanitisers
    sanitize_guard (lines 296-320) and sanitize_header (lines 321-343), and
    the text gram_csv_write_header_file (lines 345-386) writes.

    The file the emitter opens is modelled as the text it receives: the
    method WriteHeaderFile returns that text. `%ld` prints a decimal number
    (Decimal); `%lf` is the C library's formatting of a double and is a
    parameter `fmt`. */
module HeaderEmit {
  import opened CType
  import opened Wrappers
  import opened CsvTokenizer
  import opened CsvLoadSpec

  // ---------------------------------------------------------------------
  // Identifiers
  // ---------------------------------------------------------------------

  /** The index of the first '.' of `s`, `|s|` when there is none: where the
      guard loop stops. */
  function DotIndex(s: string): (k: nat)
    ensures k <= |s|
    ensures forall i :: 0 <= i < k ==> s[i] != '.'
    ensures k < |s| ==> s[k] == '.'
  {
    if s == [] || s[0] == '.' then 0 else 1 + DotIndex(s[1..])
  }

  /** One character of a guard: alphanumerics upper-cased, the rest '_'. */
  function GuardChar(c: char): char {
    if !IsAlnum(c) then '_' else ToUpper(c)
  }

  /** One character of a header identifier (line 333): `!isalnum(c) ||
      isspace(c)` gives '_', the rest is lower-cased. */
  function HeaderChar(c: char): char {
    if !IsAlnum(c) || IsSpace(c) then '_' else ToLower(c)
  }

  /** The characters a guard can hold. */
  predicate IsGuardChar(c: char) { IsUpper(c) || IsDigit(c) || c == '_' }

  /** The characters a header identifier can hold. */
  predicate IsIdentChar(c: char) { IsLower(c) || IsDigit(c) || c == '_' }

  /** Every character of `s` mapped by GuardChar. */
  function GuardText(s: string): (g: string)
    ensures |g| == |s| && forall i :: 0 <= i < |s| ==> g[i] == GuardChar(s[i])
  {
    seq(|s|, i requires 0 <= i < |s| => GuardChar(s[i]))
  }

  /** Every character of `s` mapped by HeaderChar. */
  function IdentText(s: string): (h: string)
    ensures |h| == |s| && forall i :: 0 <= i < |s| ==> h[i] == HeaderChar(s[i])
  {
    seq(|s|, i requires 0 <= i < |s| => HeaderChar(s[i]))
  }

  /** sanitize_guard: NULL (None) for an empty name and for a name starting
      with '.'; otherwise the part before the first '.', alphanumerics
      upper-cased and every other character replaced by '_'. */
  function GuardOf(name: string): (g: Option<string>)
    ensures g.None? <==> CStr(name) == [] || CStr(name)[0] == '.'
    ensures g.Some? ==>
              && |g.value| == DotIndex(CStr(name)) > 0
              && forall i :: 0 <= i < |g.value| ==>
                   && IsGuardChar(g.value[i])
                   && (IsAlnum(CStr(name)[i]) ==> g.value[i] == ToUpper(CStr(name)[i]))
                   && (!IsAlnum(CStr(name)[i]) ==> g.value[i] == '_')
  {
    var s := CStr(name);
    var k := DotIndex(s);
    if k == 0 then None else Some(GuardText(s[..k]))
  }

  /** sanitize_header: NULL (None) for an empty header; otherwise a string of
      the same length, alphanumerics lower-cased and every other character,
      white space included, replaced by '_'. */
  function HeaderIdent(header: string): (h: Option<string>)
    ensures h.None? <==> CStr(header) == []
    ensures h.Some? ==>
              && |h.value| == |CStr(header)|
              && forall i :: 0 <= i < |h.value| ==>
                   && IsIdentChar(h.value[i])
                   && (IsAlnum(CStr(header)[i]) ==> h.value[i] == ToLower(CStr(header)[i]))
                   && (!IsAlnum(CStr(header)[i]) ==> h.value[i] == '_')
  {
    var s := CStr(header);
    if s == [] then None else Some(IdentText(s))
  }

  /** A name without '.' followed by a '.' and any suffix has the guard of
      the name alone: the extension of "data.csv" does not matter. */
  lemma GuardIgnoresExtension(base: string, ext: string)
    requires forall i :: 0 <= i < |base| ==> base[i] != '.' && base[i] != '\0'
    ensures GuardOf(base + "." + ext) == GuardOf(base)
  {
    var name := base + "." + ext;
    CStrPrefix(name, |base| + 1);
    var s := CStr(name);
    assert s[..|base|] == base by {
      assert name[..|base| + 1][..|base|] == base;
    }
    assert s[|base|] == '.' by {
      assert name[..|base| + 1][|base|] == '.';
    }
    assert DotIndex(s) == |base|;
    CStrPrefix(base, |base|);
    assert base[..|base|] == base;
  }

  /** A guard is its own guard: sanitize_guard is idempotent. */
  lemma GuardIdempotent(name: string)
    requires GuardOf(name).Some?
    ensures GuardOf(GuardOf(name).value) == GuardOf(name)
  {
    var g := GuardOf(name).value;
    CStrPrefix(g, |g|);
    assert g[..|g|] == g;
    assert DotIndex(g) == |g|;
    assert g[..DotIndex(g)] == g;
    assert GuardText(g) == g;
  }

  /** A header identifier is its own identifier: sanitize_header is
      idempotent. */
  lemma HeaderIdentIdempotent(header: string)
    requires HeaderIdent(header).Some?
    ensures HeaderIdent(HeaderIdent(header).value) == HeaderIdent(header)
  {
    var h := HeaderIdent(header).value;
    CStrPrefix(h, |h|);
    assert h[..|h|] == h;
    assert IdentText(h) == h;
  }

  /** Distinct headers can share an identifier, and the emitted struct then
      declares the same member twice. */
  lemma HeaderIdentsCollide()
    ensures HeaderIdent("X Y") == Some("x_y")
    ensures HeaderIdent("x-y") == Some("x_y")
  {
    CStrPrefix("X Y", 3);
    assert "X Y"[..3] == "X Y";
    assert IdentText("X Y") == "x_y";
    CStrPrefix("x-y", 3);
    assert "x-y"[..3] == "x-y";
    assert IdentText("x-y") == "x_y";
  }

  /** The guard of a file name: its extension dropped and the rest
      upper-cased. */
  lemma DataGuard()
    ensures GuardOf("data.csv") == Some("DATA")
  {
    GuardIgnoresExtension("data", "csv");
    assert "data" + "." + "csv" == "data.csv";
    CStrPrefix("data", 4);
    assert "data"[..4] == "data";
    assert GuardText("data") == "DATA";
  }

  /** Everything from the first '.' is dropped, and a '-' becomes '_'. */
  lemma DottedGuard()
    ensures GuardOf("a-b.v2.csv") == Some("A_B")
  {
    GuardIgnoresExtension("a-b", "v2.csv");
    assert "a-b" + "." + "v2.csv" == "a-b.v2.csv";
    CStrPrefix("a-b", 3);
    assert "a-b"[..3] == "a-b";
    assert GuardText("a-b") == "A_B";
  }

  /** A name starting with '.' has no guard. */
  lemma HiddenFileHasNoGuard()
    ensures GuardOf(".hidden") == None
  {
    CStrPrefix(".hidden", 1);
  }

  // ---------------------------------------------------------------------
  // Numbers
  // ---------------------------------------------------------------------

  function DigitChar(d: nat): (c: char)
    requires d < 10
    ensures IsDigit(c)
  {
    ('0' as int + d) as char
  }

  function DigitValue(c: char): (d: nat)
    requires IsDigit(c)
    ensures d < 10
  {
    c as int - '0' as int
  }

  /** `%ld` of a non-negative number: its decimal digits, no leading zero. */
  function Decimal(n: nat): (s: string)
    ensures |s| > 0 && forall i :: 0 <= i < |s| ==> IsDigit(s[i])
    ensures s[0] == '0' <==> n == 0
    ensures n < 10 ==> |s| == 1
  {
    if n < 10 then [DigitChar(n)] else Decimal(n / 10) + [DigitChar(n % 10)]
  }

  /** The number a string of decimal digits denotes. */
  function DecimalValue(s: string): nat
    requires forall i :: 0 <= i < |s| ==> IsDigit(s[i])
  {
    if s == [] then 0 else 10 * DecimalValue(s[..|s| - 1]) + DigitValue(s[|s| - 1])
  }

  /** Reading the printed number back gives the number. */
  lemma {:induction false} DecimalRoundTrip(n: nat)
    ensures DecimalValue(Decimal(n)) == n
  {
    var s := Decimal(n);
    if n >= 10 {
      DecimalRoundTrip(n / 10);
      assert s[..|s| - 1] == Decimal(n / 10);
    } else {
      assert s[..0] == [];
    }
  }

  // ---------------------------------------------------------------------
  // The emitted text
  // ---------------------------------------------------------------------

  /** Pieces of text written one after the other. */
  function Concat(pieces: seq<string>): (text: string)
    ensures pieces == [] ==> text == []
  {
    if pieces == [] then []
    else Concat(pieces[..|pieces| - 1]) + pieces[|pieces| - 1]
  }

  /** Writing pieces in two runs writes their concatenation. */
  lemma {:induction false} ConcatSplit(pieces: seq<string>, k: nat)
    requires k <= |pieces|
    ensures Concat(pieces) == Concat(pieces[..k]) + Concat(pieces[k..])
    decreases |pieces|
  {
    if k == |pieces| {
      assert pieces[..k] == pieces;
      assert Concat(pieces[k..]) == [];
    } else {
      var m := |pieces| - 1;
      var rest := pieces[k..];
      ConcatSplit(pieces[..m], k);
      assert pieces[..m][..k] == pieces[..k];
      assert rest[..|rest| - 1] == pieces[..m][k..];
      assert rest[|rest| - 1] == pieces[m];
    }
  }

  /** Piece `i` stands in the text right after the pieces before it. */
  lemma PieceAt(pieces: seq<string>, i: nat)
    requires i < |pieces|
    ensures var at := |Concat(pieces[..i])|;
            at + |pieces[i]| <= |Concat(pieces)|
            && Concat(pieces)[at..at + |pieces[i]|] == pieces[i]
  {
    ConcatSplit(pieces, i);
    var rest := pieces[i..];
    ConcatSplit(rest, 1);
    assert rest[..1] == [pieces[i]];
    assert Concat([pieces[i]]) == pieces[i] by {
      assert [pieces[i]][..0] == [];
    }
    Middle(Concat(pieces[..i]), pieces[i], Concat(rest[1..]));
  }

  /** Piece `i`, known by its text `x`, stands in the text right after the
      pieces before it. */
  lemma PieceIs(pieces: seq<string>, i: nat, x: string)
    requires i < |pieces| && pieces[i] == x
    ensures var at := |Concat(pieces[..i])|;
            at + |x| <= |Concat(pieces)| && Concat(pieces)[at..at + |x|] == x
  {
    PieceAt(pieces, i);
  }

  /** Writing text in three runs. */
  lemma Assoc(a: string, b: string, c: string)
    ensures a + b + c == a + (b + c)
  {
  }

  /** One more piece. */
  lemma ConcatSnoc(pieces: seq<string>, i: nat)
    requires i < |pieces|
    ensures Concat(pieces[..i + 1]) == Concat(pieces[..i]) + pieces[i]
  {
    assert pieces[..i + 1][..i] == pieces[..i];
  }

  /** The name a guard-less file gets (line 349). */
  const Unnamed: string := "UNNAMED"

  /** The guard the emitter uses: sanitize_guard of the file name, or
      "UNNAMED" when that is NULL. */
  function Guard(fileName: string): (g: string)
    ensures |g| > 0 && forall i :: 0 <= i < |g| ==> IsGuardChar(g[i])
    ensures GuardOf(fileName).Some? ==> g == GuardOf(fileName).value
    ensures GuardOf(fileName).None? ==> g == Unnamed
  {
    match GuardOf(fileName)
    case Some(g) => g
    case None => Unnamed
  }

  /** What `%s` prints for a sanitised header: the C library of the target
      (glibc) prints "(null)" for the NULL of an empty header. */
  function HeaderName(header: string): (name: string)
    ensures HeaderIdent(header).Some? ==> name == HeaderIdent(header).value
    ensures HeaderIdent(header).None? ==> name == "(null)"
  {
    match HeaderIdent(header)
    case Some(h) => h
    case None => "(null)"
  }

  /** The include guard (lines 350-352). */
  function GuardLines(g: string): string {
    "#ifndef _" + g + "_DATASET_H\n" + "#define _" + g + "_DATASET_H\n"
  }

  /** The head of the struct (lines 355-357). */
  function StructHead(g: string): string {
    "struct _gram_dataset_" + g + " {\n"
    + "\t unsigned long column_count;\n"
    + "\t unsigned long data_count;\n"
  }

  /** One array member (line 361). */
  function DeclLine(header: string, colLen: nat): string {
    "\t double h" + HeaderName(header) + "[" + Decimal(colLen) + "];\n"
  }

  /** The array members, one per header in header order (lines 359-363). */
  function DeclLines(headers: seq<string>, colLen: nat): (lines: seq<string>)
    ensures |lines| == |headers|
    ensures forall h :: 0 <= h < |headers| ==> lines[h] == DeclLine(headers[h], colLen)
  {
    seq(|headers|, h requires 0 <= h < |headers| => DeclLine(headers[h], colLen))
  }

  /** The closing of the struct and the scalar initialisers (lines 364-367). */
  function Counts(g: string, colCount: nat, colLen: nat): string {
    "} D" + g + " = {\n"
    + "\t .column_count = " + Decimal(colCount) + ",\n"
    + "\t .data_count = " + Decimal(colLen) + ",\n"
  }

  /** The values of one column, each printed with `%lf` and separated by
      ", ", with no separator after the last (lines 373-378). */
  function ValueList(values: seq<real>, fmt: real -> string): string {
    if values == [] then []
    else if |values| == 1 then fmt(values[0])
    else fmt(values[0]) + ", " + ValueList(values[1..], fmt)
  }

  /** The initialiser of one array member (lines 371-379). */
  function InitBlock(header: string, values: seq<real>, fmt: real -> string): string {
    "\t .h" + HeaderName(header) + " = {\n\t\t" + ValueList(values, fmt) + "\n\t},\n"
  }

  /** The initialisers, one per header in header order, `columns[h]` the
      values of header `h` (lines 369-380). */
  function InitBlocks(headers: seq<string>, columns: seq<seq<real>>, fmt: real -> string): (blocks: seq<string>)
    requires |columns| == |headers|
    ensures |blocks| == |headers|
    ensures forall h :: 0 <= h < |headers| ==> blocks[h] == InitBlock(headers[h], columns[h], fmt)
  {
    seq(|headers|, h requires 0 <= h < |headers| => InitBlock(headers[h], columns[h], fmt))
  }

  /** The end of the initialiser and of the guarded region (lines 381-384). */
  const Closing: string := "\n};\n" + "#endif\n"

  /** What the emitter reads of `csv`: `header_count` headers, and
      `col_len` values in each of their columns. */
  predicate Printable(csv: CsvFile) {
    && csv.headerCount <= |csv.headers|
    && csv.headerCount <= |csv.columns|
    && forall h :: 0 <= h < csv.headerCount ==> csv.colLen <= |csv.columns[h]|
  }

  /** The columns the emitter prints: the first `col_len` values of each of
      the first `header_count` columns. */
  function PrintedColumns(csv: CsvFile): (cols: seq<seq<real>>)
    requires Printable(csv)
    ensures |cols| == csv.headerCount
    ensures forall h :: 0 <= h < csv.headerCount ==> cols[h] == csv.columns[h][..csv.colLen]
  {
    Prefixes(csv.columns, csv.headerCount, csv.colLen)
  }

  /** The first `len` values of each of the first `n` columns. */
  function Prefixes(columns: seq<seq<real>>, n: nat, len: nat): (cols: seq<seq<real>>)
    requires n <= |columns| && forall h :: 0 <= h < n ==> len <= |columns[h]|
    ensures |cols| == n && forall h :: 0 <= h < n ==> cols[h] == columns[h][..len]
  {
    seq(n, h requires 0 <= h < n => columns[h][..len])
  }

  /** The part of the text between the include guard and its `#endif`. */
  function Body(csv: CsvFile, fmt: real -> string): string
    requires Printable(csv)
  {
    var g := Guard(csv.fileName);
    var hs := csv.headers[..csv.headerCount];
    StructHead(g) + Concat(DeclLines(hs, csv.colLen)) + Counts(g, csv.colCount, csv.colLen)
    + Concat(InitBlocks(hs, PrintedColumns(csv), fmt))
  }

  /** The whole text gram_csv_write_header_file writes for `csv`. */
  function HeaderText(csv: CsvFile, fmt: real -> string): string
    requires Printable(csv)
  {
    GuardLines(Guard(csv.fileName)) + Body(csv, fmt) + Closing
  }

  /** A table the loader produced can be printed. */
  lemma LoadedIsPrintable(s: LibState, path: string, data: seq<Byte>, atof: string -> real)
    requires LoadFile(s, path, data, atof).1.Loaded?
    ensures Printable(LoadFile(s, path, data, atof).1.csv)
  {
    var c := LoadFile(s, path, data, atof).1.csv;
    assert forall h :: 0 <= h < c.colCount ==> |c.columns[h]| == c.colLen;
  }

  // ---------------------------------------------------------------------
  // Properties of the text
  // ---------------------------------------------------------------------

  /** The text is bracketed by the include guard: it starts with `#ifndef`
      and `#define` of `_<GUARD>_DATASET_H`, and ends with `#endif`. */
  lemma TextIsGuarded(csv: CsvFile, fmt: real -> string)
    requires Printable(csv)
    ensures var head := GuardLines(Guard(csv.fileName));
            var text := HeaderText(csv, fmt);
            && |head| + |Closing| <= |text|
            && text[..|head|] == head
            && text[|text| - |Closing|..] == Closing
  {
    Bracketed(GuardLines(Guard(csv.fileName)), Body(csv, fmt), Closing);
  }

  /** The first and the last of three runs of text. */
  lemma Bracketed(a: string, b: string, c: string)
    ensures |a| + |c| <= |a + b + c|
    ensures (a + b + c)[..|a|] == a && (a + b + c)[|a + b + c| - |c|..] == c
  {
  }

  /** The struct declares, for header `h`, a member `h<name>[col_len]` right
      after the members of the headers before it. */
  lemma DeclarationOfHeader(hs: seq<string>, h: nat, colLen: nat)
    requires h < |hs|
    ensures var lines := DeclLines(hs, colLen);
            var at := |Concat(lines[..h])|;
            var line := "\t double h" + HeaderName(hs[h]) + "[" + Decimal(colLen) + "];\n";
            at + |line| <= |Concat(lines)| && Concat(lines)[at..at + |line|] == line
  {
    var lines := DeclLines(hs, colLen);
    PieceAt(lines, h);
    assert lines[h] == DeclLine(hs[h], colLen);
  }

  /** The initialiser for header `h` lists the values of its column, right
      after the initialisers of the headers before it. */
  lemma InitializerOfHeader(hs: seq<string>, columns: seq<seq<real>>, h: nat, fmt: real -> string)
    requires |columns| == |hs| && h < |hs|
    ensures |Concat(InitBlocks(hs, columns, fmt)[..h])| + |InitBlock(hs[h], columns[h], fmt)|
            <= |Concat(InitBlocks(hs, columns, fmt))|
    ensures Concat(InitBlocks(hs, columns, fmt))[|Concat(InitBlocks(hs, columns, fmt)[..h])|..
              |Concat(InitBlocks(hs, columns, fmt)[..h])| + |InitBlock(hs[h], columns[h], fmt)|]
            == InitBlock(hs[h], columns[h], fmt)
  {
    PieceIs(InitBlocks(hs, columns, fmt), h, InitBlock(hs[h], columns[h], fmt));
  }

  /** Six runs of text, grouped three ways. */
  lemma Regroup(a: string, b: string, c: string, d: string, e: string, f: string)
    ensures a + (b + c + d + e) + f == (a + b) + c + (d + e + f)
    ensures a + (b + c + d + e) + f == (a + b + c + d) + e + f
  {
  }

  /** A run of text between two others is the slice of the whole at its
      place. */
  lemma Middle(pre: string, x: string, post: string)
    ensures |pre| + |x| <= |pre + x + post| && (pre + x + post)[|pre|..|pre| + |x|] == x
  {
  }

  /** Where the members of the struct start in the emitted text. */
  function DeclStart(csv: CsvFile): nat {
    var g := Guard(csv.fileName);
    |GuardLines(g)| + |StructHead(g)|
  }

  /** Where the initialisers start in the emitted text. */
  function InitStart(csv: CsvFile): nat
    requires Printable(csv)
  {
    var g := Guard(csv.fileName);
    |GuardLines(g)| + |StructHead(g)| + |Concat(DeclLines(csv.headers[..csv.headerCount], csv.colLen))|
    + |Counts(g, csv.colCount, csv.colLen)|
  }

  /** The members of the struct and the initialisers, in the emitted text:
      the members (DeclLines, placed one by one by DeclarationOfHeader)
      start at DeclStart, and the initialisers (InitBlocks, placed by
      InitializerOfHeader) at InitStart. So the member of header `h` stands
      at DeclStart plus the length of the members before it, and likewise
      for its initialiser. */
  lemma RunsInText(csv: CsvFile, fmt: real -> string)
    requires Printable(csv)
    ensures var decls := Concat(DeclLines(csv.headers[..csv.headerCount], csv.colLen));
            && DeclStart(csv) + |decls| <= |HeaderText(csv, fmt)|
            && HeaderText(csv, fmt)[DeclStart(csv)..DeclStart(csv) + |decls|] == decls
    ensures var inits := Concat(InitBlocks(csv.headers[..csv.headerCount], PrintedColumns(csv), fmt));
            && InitStart(csv) + |inits| <= |HeaderText(csv, fmt)|
            && HeaderText(csv, fmt)[InitStart(csv)..InitStart(csv) + |inits|] == inits
  {
    var g := Guard(csv.fileName);
    var hs := csv.headers[..csv.headerCount];
    var decls := Concat(DeclLines(hs, csv.colLen));
    var counts := Counts(g, csv.colCount, csv.colLen);
    var inits := Concat(InitBlocks(hs, PrintedColumns(csv), fmt));
    Regroup(GuardLines(g), StructHead(g), decls, counts, inits, Closing);
    Middle(GuardLines(g) + StructHead(g), decls, counts + inits + Closing);
    Middle(GuardLines(g) + StructHead(g) + decls + counts, inits, Closing);
  }

  /** Splitting text at every ", ", the piece in progress being `buf`: how
      a reader of the emitted initialiser recovers the printed values. */
  function SplitValues(buf: string, s: string): (pieces: seq<string>)
    ensures |pieces| > 0
    decreases |s|
  {
    if s == [] then [buf]
    else if |s| >= 2 && s[0] == ',' && s[1] == ' ' then [buf] + SplitValues([], s[2..])
    else SplitValues(buf + [s[0]], s[1..])
  }

  /** Over a piece without a comma the split only collects. */
  lemma {:induction false} SplitCollects(buf: string, s: string, rest: string)
    requires NoComma(s)
    ensures SplitValues(buf, s + rest) == SplitValues(buf + s, rest)
    decreases |s|
  {
    if s != [] {
      assert (s + rest)[0] == s[0];
      assert (s + rest)[1..] == s[1..] + rest;
      SplitCollects(buf + [s[0]], s[1..], rest);
      assert buf + [s[0]] + s[1..] == buf + s;
    } else {
      assert s + rest == rest;
      assert buf + s == buf;
    }
  }

  /** The printed values split back at ", " into the strings `%lf` printed,
      in row order, provided no printed value holds a comma (the decimal
      point of the "C" locale is '.'). */
  lemma {:induction false} ValuesSplitBack(values: seq<real>, fmt: real -> string)
    requires |values| > 0
    requires forall i :: 0 <= i < |values| ==> NoComma(fmt(values[i]))
    ensures SplitValues([], ValueList(values, fmt)) == seq(|values|, i requires 0 <= i < |values| => fmt(values[i]))
    decreases |values|
  {
    var want := seq(|values|, i requires 0 <= i < |values| => fmt(values[i]));
    var f := fmt(values[0]);
    if |values| == 1 {
      SplitCollects([], f, []);
      assert f + [] == f;
      assert [] + f == f;
    } else {
      var tail := ValueList(values[1..], fmt);
      SplitCollects([], f, ", " + tail);
      assert f + ", " + tail == f + (", " + tail);
      assert [] + f == f;
      assert (", " + tail)[2..] == tail;
      ValuesSplitBack(values[1..], fmt);
      assert want == [f] + seq(|values| - 1, i requires 0 <= i < |values| - 1 => fmt(values[1..][i]));
    }
  }

  /** The emitted value list for one column and one more value. */
  lemma {:induction false} ValueListSnoc(values: seq<real>, v: real, fmt: real -> string)
    requires |values| > 0
    ensures ValueList(values + [v], fmt) == ValueList(values, fmt) + ", " + fmt(v)
    decreases |values|
  {
    var all := values + [v];
    if |values| == 1 {
      assert all[1..] == [v];
    } else {
      assert all[1..] == values[1..] + [v];
      ValueListSnoc(values[1..], v, fmt);
    }
  }

  // ---------------------------------------------------------------------
  // The procedures
  // ---------------------------------------------------------------------

  /** `strlen`. */
  method Strlen(s: string) returns (n: nat)
    ensures n == |CStr(s)|
  {
    n := 0;
    while n < |s| && s[n] != '\0'
      invariant n <= |s| && forall i :: 0 <= i < n ==> s[i] != '\0'
    {
      n := n + 1;
    }
    CStrPrefix(s, n);
  }

  /** sanitize_guard (lines 296-320): the calloc'd buffer is filled up to the
      first '.', and the string it holds is returned. */
  method SanitizeGuard(str: string) returns (guard: Option<string>)
    ensures guard == GuardOf(str)
  {
    var len := Strlen(str);
    if len == 0 {
      return None;
    }
    ghost var s := CStr(str);
    var next := new char[len + 1](_ => '\0');
    var i := 0;
    while i < len
      invariant |s| == len && i <= len && i <= DotIndex(s)
      invariant forall k :: 0 <= k < i ==> next[k] == GuardChar(s[k])
      invariant forall k :: i <= k <= len ==> next[k] == '\0'
    {
      var c := str[i];
      assert c == s[i];
      if c == '.' {
        break;
      }
      if !IsAlnum(c) {
        next[i] := '_';
      } else {
        next[i] := ToUpper(str[i]);
      }
      i := i + 1;
    }
    assert i == DotIndex(s);
    if i == 0 {
      return None;
    }
    CStrPrefix(next[..], i);
    assert next[..][..i] == GuardText(s[..i]);
    return Some(CStr(next[..]));
  }

  /** sanitize_header (lines 321-343): every character of the header is
      mapped into a calloc'd buffer of the same length. */
  method SanitizeHeader(str: string) returns (header: Option<string>)
    ensures header == HeaderIdent(str)
  {
    var len := Strlen(str);
    if len == 0 {
      return None;
    }
    ghost var s := CStr(str);
    var head := new char[len + 1](_ => '\0');
    var i := 0;
    while i < len
      invariant i <= len
      invariant forall k :: 0 <= k < i ==> head[k] == HeaderChar(s[k])
      invariant head[len] == '\0'
    {
      var c := str[i];
      if !IsAlnum(c) || IsSpace(c) {
        head[i] := '_';
      } else {
        head[i] := ToLower(str[i]);
      }
      i := i + 1;
    }
    CStrPrefix(head[..], len);
    assert head[..][..len] == IdentText(s);
    return Some(CStr(head[..]));
  }

  /** `%s` of a sanitised header, "(null)" for NULL. */
  method PrintHeader(str: string) returns (name: string)
    ensures name == HeaderName(str)
  {
    var header := SanitizeHeader(str);
    name := if header.Some? then header.value else "(null)";
  }

  /** The value loop of one initialiser (lines 374-379). */
  method PrintValues(column: seq<real>, len: nat, fmt: real -> string) returns (text: string)
    requires len <= |column|
    ensures text == ValueList(column[..len], fmt)
  {
    text := [];
    var i := 0;
    while i < len
      invariant i <= len
      invariant text == if i == 0 then [] else ValueList(column[..i], fmt) + (if i < len then ", " else "")
    {
      if i > 0 {
        ValueListSnoc(column[..i], column[i], fmt);
        assert column[..i + 1] == column[..i] + [column[i]];
      } else {
        assert column[..1] == [column[0]];
      }
      text := text + fmt(column[i]);
      if i != len - 1 {
        text := text + ", ";
      }
      i := i + 1;
    }
    assert column[..0] == [];
  }

  /** The member declaration of one header (lines 360-363). */
  method PrintDeclaration(str: string, colLen: nat) returns (line: string)
    ensures line == DeclLine(str, colLen)
  {
    var header := PrintHeader(str);
    line := "\t double h" + header + "[" + Decimal(colLen) + "];\n";
  }

  /** The initialiser of one header (lines 371-380). */
  method PrintInitializer(str: string, column: seq<real>, len: nat, fmt: real -> string) returns (block: string)
    requires len <= |column|
    ensures block == InitBlock(str, column[..len], fmt)
  {
    var header := PrintHeader(str);
    var values := PrintValues(column, len, fmt);
    block := "\t .h" + header + " = {\n\t\t" + values + "\n\t},\n";
  }

  /** The declaration loop (lines 359-364). */
  method PrintDeclarations(hs: seq<string>, colLen: nat) returns (text: string)
    ensures text == Concat(DeclLines(hs, colLen))
  {
    ghost var decls := DeclLines(hs, colLen);
    text := [];
    var h := 0;
    while h < |hs|
      invariant h <= |hs|
      invariant text == Concat(decls[..h])
    {
      var line := PrintDeclaration(hs[h], colLen);
      assert line == decls[h];
      ConcatSnoc(decls, h);
      text := text + line;
      h := h + 1;
    }
    assert decls[..h] == decls;
  }

  /** The initialiser loop (lines 370-381), `len` values of each column. */
  method PrintInitializers(hs: seq<string>, columns: seq<seq<real>>, len: nat, fmt: real -> string)
      returns (text: string)
    requires |columns| >= |hs| && forall h :: 0 <= h < |hs| ==> len <= |columns[h]|
    ensures text == Concat(InitBlocks(hs, Prefixes(columns, |hs|, len), fmt))
  {
    ghost var cols := Prefixes(columns, |hs|, len);
    ghost var blocks := InitBlocks(hs, cols, fmt);
    text := [];
    var h := 0;
    while h < |hs|
      invariant h <= |hs|
      invariant text == Concat(blocks[..h])
    {
      var block := PrintInitializer(hs[h], columns[h], len, fmt);
      assert cols[h] == columns[h][..len];
      assert block == blocks[h];
      ConcatSnoc(blocks, h);
      text := text + block;
      h := h + 1;
    }
    assert blocks[..h] == blocks;
  }

  /** gram_csv_write_header_file (lines 345-386): the text written to the
      header file, piece by piece as the source prints it. */
  method WriteHeaderFile(csv: CsvFile, fmt: real -> string) returns (text: string)
    requires Printable(csv)
    ensures text == HeaderText(csv, fmt)
  {
    var guard := SanitizeGuard(csv.fileName);
    var g := if guard.Some? then guard.value else Unnamed;
    var hs := csv.headers[..csv.headerCount];
    var decls := PrintDeclarations(hs, csv.colLen);
    var inits := PrintInitializers(hs, csv.columns, csv.colLen, fmt);
    assert PrintedColumns(csv) == Prefixes(csv.columns, |hs|, csv.colLen);
    ghost var sd := StructHead(g) + decls;
    ghost var sdk := sd + Counts(g, csv.colCount, csv.colLen);
    text := GuardLines(g) + StructHead(g) + decls + Counts(g, csv.colCount, csv.colLen) + inits;
    Assoc(GuardLines(g), StructHead(g), decls);
    Assoc(GuardLines(g), sd, Counts(g, csv.colCount, csv.colLen));
    Assoc(GuardLines(g), sdk, inits);
    assert text == GuardLines(g) + Body(csv, fmt);
    text := text + Closing;
  }
}

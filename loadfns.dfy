/** The string and colour helpers of src/loadfns.c: stolower (lines 36-44),
    find_predefined_color (lines 46-55) over the colour table (lines 22-30,
    include/gram.h:17-23), is_color (lines 181-203), find_dir_prefix (lines
    305-313) and the path join of l_load_csv (lines 318-321).

    A `GramColor` (include/gram.h:8-10) is four C `int`s, modelled as
    integers. Every value the helpers store in one is a table constant or
    a bitwise or, into a colour, of a number `strtol` read from at most six
    characters, so its magnitude stays below 2^24 and no conversion to
    `int` changes it. */
module LoadFns {
  import opened CType
  import opened Wrappers

  // ---------------------------------------------------------------------
  // Bitwise or of two's-complement integers
  // ---------------------------------------------------------------------

  function Abs(n: int): nat {
    if n < 0 then -n else n
  }

  /** Bit `i` of `n` in two's complement: `n / 2` is `n >> 1`, which keeps
      the sign, so every bit of -1 is set. */
  function Bit(n: int, i: nat): (b: nat)
    ensures b < 2
    decreases i
  {
    if i == 0 then n % 2 else Bit(n / 2, i - 1)
  }

  function Pow2(k: nat): (p: nat)
    ensures p >= 1
  {
    if k == 0 then 1 else 2 * Pow2(k - 1)
  }

  /** `x | y`, from the lowest bit up. */
  function BitOr(x: int, y: int): (z: int)
    ensures x >= 0 && y >= 0 ==> z >= x && z >= y
    ensures x < 0 || y < 0 ==> z < 0
    decreases Abs(x) + Abs(y)
  {
    if x == 0 then y
    else if y == 0 then x
    else if x == -1 || y == -1 then -1
    else 2 * BitOr(x / 2, y / 2) + (if x % 2 == 1 || y % 2 == 1 then 1 else 0)
  }

  lemma {:induction false} BitOfZero(i: nat)
    ensures Bit(0, i) == 0
  {
    if i > 0 {
      BitOfZero(i - 1);
    }
  }

  lemma {:induction false} BitOfMinusOne(i: nat)
    ensures Bit(-1, i) == 1
  {
    if i > 0 {
      BitOfMinusOne(i - 1);
    }
  }

  /** BitOr is the bitwise or: each bit of `x | y` is set exactly when that
      bit of `x` or of `y` is. */
  lemma {:induction false} BitOrBits(x: int, y: int, i: nat)
    ensures Bit(BitOr(x, y), i) == 1 <==> Bit(x, i) == 1 || Bit(y, i) == 1
    decreases Abs(x) + Abs(y)
  {
    if x == 0 || y == 0 {
      BitOfZero(i);
    } else if x == -1 || y == -1 {
      BitOfMinusOne(i);
    } else {
      var q := BitOr(x / 2, y / 2);
      var low := if x % 2 == 1 || y % 2 == 1 then 1 else 0;
      assert BitOr(x, y) == 2 * q + low;
      if i > 0 {
        assert (2 * q + low) / 2 == q;
        BitOrBits(x / 2, y / 2, i - 1);
      }
    }
  }

  /** Or-ing numbers in [0, 2^k) stays in [0, 2^k). */
  lemma {:induction false} BitOrBound(x: int, y: int, k: nat)
    requires 0 <= x < Pow2(k) && 0 <= y < Pow2(k)
    ensures 0 <= BitOr(x, y) < Pow2(k)
    decreases Abs(x) + Abs(y)
  {
    if x != 0 && y != 0 {
      assert k > 0;
      BitOrBound(x / 2, y / 2, k - 1);
    }
  }

  // ---------------------------------------------------------------------
  // Colours
  // ---------------------------------------------------------------------

  /** The value of a `GramColor`. */
  datatype Rgba = Rgba(r: int, g: int, b: int, a: int)

  /** The colours of include/gram.h:17-23. */
  const Red: Rgba := Rgba(255, 0, 0, 255)
  const Green: Rgba := Rgba(0, 255, 0, 255)
  const Blue: Rgba := Rgba(0, 0, 255, 255)
  const Yellow: Rgba := Rgba(255, 255, 0, 255)
  const White: Rgba := Rgba(255, 255, 255, 255)
  const Pink: Rgba := Rgba(255, 20, 147, 255)
  const Orange: Rgba := Rgba(255, 165, 0, 255)

  /** `PredefinedColors`, in table order. */
  const PredefinedColors: seq<(string, Rgba)> := [
    ("red", Red), ("blue", Blue), ("green", Green), ("pink", Pink),
    ("yellow", Yellow), ("white", White), ("orange", Orange)
  ]

  /** A `GramColor` written through a pointer. */
  class GramColor {
    var r: int
    var g: int
    var b: int
    var a: int

    function Value(): Rgba
      reads this
    {
      Rgba(r, g, b, a)
    }

    /** `GramColor c = { 0 }`. */
    constructor ()
      ensures Value() == Rgba(0, 0, 0, 0)
    {
      r, g, b, a := 0, 0, 0, 0;
    }

    /** The three `|=` of is_color and `a = 255` (src/loadfns.c:194-200),
        `hex` the parsed number. */
    method OrHex(hex: int)
      modifies this
      ensures Value() == OredColor(old(Value()), hex)
    {
      var v := OrChannels(Value(), hex);
      r, g, b, a := v.r, v.g, v.b, v.a;
    }

    /** `*c = color`. */
    method Set(color: Rgba)
      modifies this
      ensures Value() == color
    {
      r, g, b, a := color.r, color.g, color.b, color.a;
    }
  }

  /** The statements of is_color that update the colour (src/loadfns.c:194-199),
      one after the other on the colour's value. `>> 8` of a `long` is an
      arithmetic shift, a division by 256 rounding down, which is what `/`
      on integers does for a positive divisor. */
  method OrChannels(prev: Rgba, hex: int) returns (c: Rgba)
    ensures c == OredColor(prev, hex)
  {
    c := prev;
    var h := hex;
    c := c.(b := BitOr(c.b, h));
    h := h / 256;
    c := c.(g := BitOr(c.g, h));
    h := h / 256;
    c := c.(r := BitOr(c.r, h));
    c := c.(a := 255);
  }

  /** The colour of the first table entry from `i` on whose name `name` is. */
  function PredefinedFrom(name: string, i: nat): (c: Option<Rgba>)
    requires i <= |PredefinedColors|
    ensures c.Some? <==> exists k :: i <= k < |PredefinedColors| && PredefinedColors[k].0 == name
    ensures c.Some? ==> exists k :: i <= k < |PredefinedColors| && PredefinedColors[k] == (name, c.value)
    decreases |PredefinedColors| - i
  {
    if i == |PredefinedColors| then None
    else if PredefinedColors[i].0 == name then Some(PredefinedColors[i].1)
    else PredefinedFrom(name, i + 1)
  }

  /** What find_predefined_color finds for the C string `str`. */
  function Predefined(str: string): Option<Rgba> {
    PredefinedFrom(CStr(str), 0)
  }

  /** find_predefined_color succeeds exactly on the seven names of the table,
      spelled exactly, and gives each its colour. */
  lemma PredefinedNames(str: string)
    ensures Predefined(str).Some? <==>
              CStr(str) in {"red", "blue", "green", "pink", "yellow", "white", "orange"}
    ensures CStr(str) == "red" ==> Predefined(str) == Some(Red)
    ensures CStr(str) == "blue" ==> Predefined(str) == Some(Blue)
    ensures CStr(str) == "green" ==> Predefined(str) == Some(Green)
    ensures CStr(str) == "pink" ==> Predefined(str) == Some(Pink)
    ensures CStr(str) == "yellow" ==> Predefined(str) == Some(Yellow)
    ensures CStr(str) == "white" ==> Predefined(str) == Some(White)
    ensures CStr(str) == "orange" ==> Predefined(str) == Some(Orange)
  {
    var t := PredefinedColors;
    assert t[0].0 == "red" && t[1].0 == "blue" && t[2].0 == "green" && t[3].0 == "pink";
    assert t[4].0 == "yellow" && t[5].0 == "white" && t[6].0 == "orange";
  }

  /** Predefined names are lower case: "Red" is not one. */
  lemma PredefinedIsCaseSensitive()
    ensures Predefined("Red").None?
  {
    CStrPrefix("Red", 3);
    assert "Red"[..3] == "Red";
    PredefinedNames("Red");
  }

  // ---------------------------------------------------------------------
  // stolower
  // ---------------------------------------------------------------------

  /** stolower: a new string of the length of the C string `str` whose
      character `i` is `tolower(str[i])`. */
  function Lowered(str: string): (l: string)
    ensures |l| == |CStr(str)|
    ensures forall i :: 0 <= i < |l| ==> l[i] == ToLower(CStr(str)[i]) && l[i] != '\0'
  {
    var s := CStr(str);
    seq(|s|, i requires 0 <= i < |s| => ToLower(s[i]))
  }

  /** Lowering twice is lowering once, and the lowered string is its own
      C string. */
  lemma LoweredIdempotent(str: string)
    ensures CStr(Lowered(str)) == Lowered(str)
    ensures Lowered(Lowered(str)) == Lowered(str)
  {
    var l := Lowered(str);
    CStrPrefix(l, |l|);
    assert l[..|l|] == l;
  }

  // ---------------------------------------------------------------------
  // Hexadecimal
  // ---------------------------------------------------------------------

  function Pow16(n: nat): (p: nat)
    ensures p >= 1
  {
    if n == 0 then 1 else 16 * Pow16(n - 1)
  }

  /** The number the first `k` characters of `s`, all hexadecimal digits,
      denote. */
  function HexPrefix(s: string, k: nat): (v: nat)
    requires k <= |s| && forall i :: 0 <= i < k ==> IsHexDigit(s[i])
    ensures v < Pow16(k)
  {
    if k == 0 then 0 else 16 * HexPrefix(s, k - 1) + HexDigitValue(s[k - 1])
  }

  /** The length of the run of hexadecimal digits that starts `s`. */
  function HexSpan(s: string): (k: nat)
    ensures k <= |s|
    ensures forall i :: 0 <= i < k ==> IsHexDigit(s[i])
    ensures k < |s| ==> !IsHexDigit(s[k])
  {
    if s == [] || !IsHexDigit(s[0]) then 0 else 1 + HexSpan(s[1..])
  }

  lemma {:induction false} Pow16Monotone(m: nat, n: nat)
    requires m <= n
    ensures Pow16(m) <= Pow16(n)
    decreases n
  {
    if m < n {
      Pow16Monotone(m, n - 1);
    }
  }

  /** The length of the run of white space (`isspace`) that starts `s`. */
  function SpaceSpan(s: string): (k: nat)
    ensures k <= |s|
    ensures forall i :: 0 <= i < k ==> IsSpace(s[i])
    ensures k < |s| ==> !IsSpace(s[k])
  {
    if s == [] || !IsSpace(s[0]) then 0 else 1 + SpaceSpan(s[1..])
  }

  /** `s` without a leading "0x" or "0X". */
  function DropHexPrefix(s: string): (d: string)
    ensures |d| <= |s| && d == s[|s| - |d|..]
  {
    if |s| >= 2 && s[0] == '0' && (s[1] == 'x' || s[1] == 'X') then s[2..] else s
  }

  /** `strtol(s, NULL, 16)` on a string too short to overflow a `long`:
      leading white space is skipped, then an optional '+' or '-', then an
      optional "0x" or "0X"; the value is that of the longest run of
      hexadecimal digits which follows, 0 when there is none, negated after
      a '-'. */
  function Strtol16(s: string): (v: int)
    ensures HexSpan(s) == |s| ==> v == HexPrefix(s, |s|)
    ensures Abs(v) < Pow16(|s|)
  {
    var t := s[SpaceSpan(s)..];
    var signed := |t| > 0 && (t[0] == '+' || t[0] == '-');
    var u := if signed then t[1..] else t;
    var d := DropHexPrefix(u);
    var k := HexSpan(d);
    var m: int := HexPrefix(d, k);
    Pow16Monotone(k, |s|);
    if signed && t[0] == '-' then -m else m
  }

  // ---------------------------------------------------------------------
  // is_color
  // ---------------------------------------------------------------------

  /** `strlen("#aabbcc")`. */
  const PatternLength: nat := 7

  /** is_color on the C string `str` and the colour `c` points to: None
      when it returns 0 (`*c` untouched), else the new `*c`. The name is
      lower-cased first; a 7-character string is parsed from its second
      character whatever its first is, and the parsed number is or-ed
      unmasked into the blue, green and red components. */
  function ParseColor(str: string, prev: Rgba): (r: Option<Rgba>)
    ensures Predefined(Lowered(str)).Some? ==> r == Predefined(Lowered(str))
    ensures Predefined(Lowered(str)).None? && |CStr(str)| != PatternLength ==> r.None?
    ensures Predefined(Lowered(str)).None? && |CStr(str)| == PatternLength ==> r.Some? && r.value.a == 255
  {
    var l := Lowered(str);
    match Predefined(l)
    case Some(c) => Some(c)
    case None =>
      if |l| != PatternLength then None
      else Some(OredColor(prev, HexDigits(l[1..])))
  }

  /** `strtol` of the six characters after the first. */
  function HexDigits(s: string): (hex: int)
    requires |s| == 6
  {
    Strtol16(s)
  }

  /** The three `|=` of is_color and `a = 255` (lines 194-199): the number
      or-ed into blue, its bits from 8 up into green, from 16 up into red. */
  function OredColor(prev: Rgba, hex: int): Rgba {
    Rgba(BitOr(prev.r, hex / 65536), BitOr(prev.g, hex / 256), BitOr(prev.b, hex), 255)
  }

  /** The byte that the two digits at `i` and `i + 1` spell. */
  function Pair(d: string, i: nat): (v: nat)
    requires i + 1 < |d| && IsHexDigit(d[i]) && IsHexDigit(d[i + 1])
    ensures v < 256
  {
    16 * HexDigitValue(d[i]) + HexDigitValue(d[i + 1])
  }

  /** Six digits are three bytes, the first the most significant. */
  lemma SixDigits(d: string)
    requires |d| == 6 && forall i :: 0 <= i < 6 ==> IsHexDigit(d[i])
    ensures HexPrefix(d, 6) == 256 * (256 * Pair(d, 0) + Pair(d, 2)) + Pair(d, 4)
  {
    assert HexPrefix(d, 2) == Pair(d, 0);
    assert HexPrefix(d, 4) == 256 * Pair(d, 0) + Pair(d, 2);
  }

  /** Three bytes packed into one number `n`, the first two into `m`. */
  lemma BytePairs(n: int, m: int, x: int, y: int, z: int)
    requires 0 <= x < 256 && 0 <= y < 256 && 0 <= z < 256
    requires m == 256 * x + y && n == 256 * m + z
    ensures n / 65536 == x && n / 256 == m
  {
  }

  /** A zeroed colour. */
  const Black: Rgba := Rgba(0, 0, 0, 0)

  /** A 7-character string that names no colour and has six hexadecimal
      digits after its first character ors their value into `prev`. */
  lemma ParseHexColor(str: string, d: string, prev: Rgba)
    requires |CStr(str)| == PatternLength && Predefined(Lowered(str)).None?
    requires d == Lowered(str)[1..] && forall i :: 0 <= i < |d| ==> IsHexDigit(d[i])
    ensures ParseColor(str, prev) == Some(OredColor(prev, HexPrefix(d, 6)))
  {
    assert HexSpan(d) == 6;
  }

  /** Six digits `rrggbb` or-ed into a zeroed colour, as ParseHexColor
      does for "#rrggbb": red is `rr`, green `rrgg`, blue `rrggbb`, so each
      channel holds its own pair only in its low eight bits. */
  lemma HexColorOnBlack(d: string)
    requires |d| == 6 && forall i :: 0 <= i < 6 ==> IsHexDigit(d[i])
    ensures OredColor(Black, HexPrefix(d, 6)) ==
            Rgba(Pair(d, 0), 256 * Pair(d, 0) + Pair(d, 2),
                 256 * (256 * Pair(d, 0) + Pair(d, 2)) + Pair(d, 4), 255)
  {
    var rr, gg, bb := Pair(d, 0), Pair(d, 2), Pair(d, 4);
    SixDigits(d);
    BytePairs(HexPrefix(d, 6), 256 * rr + gg, rr, gg, bb);
  }

  /** Colour names match whatever their case. */
  lemma ColorNamesIgnoreCase(str: string, prev: Rgba)
    requires CStr(Lowered(str)) in {"red", "blue", "green", "pink", "yellow", "white", "orange"}
    ensures ParseColor(str, prev).Some? && ParseColor(str, prev) == Predefined(Lowered(str))
  {
    PredefinedNames(Lowered(str));
  }

  /** The first character of a 7-character string is not checked: any
      character there gives the colour '#' gives. */
  lemma FirstCharacterUnchecked(x: char, rest: string, prev: Rgba)
    requires x != '\0' && |rest| == 6 && forall i :: 0 <= i < 6 ==> rest[i] != '\0'
    requires Predefined(Lowered([x] + rest)).None? && Predefined(Lowered("#" + rest)).None?
    ensures ParseColor([x] + rest, prev) == ParseColor("#" + rest, prev)
  {
    CStrPrefix([x] + rest, 7);
    CStrPrefix("#" + rest, 7);
    assert ([x] + rest)[..7] == [x] + rest;
    assert ("#" + rest)[..7] == "#" + rest;
    assert Lowered([x] + rest)[1..] == Lowered("#" + rest)[1..];
  }

  /** A string of hexadecimal digits after a '-' reads as its value negated. */
  lemma StrtolNegative(s: string, d: string)
    requires s == "-" + d && HexSpan(d) == |d|
    ensures Strtol16(s) == -(HexPrefix(d, |d|) as int)
  {
    assert SpaceSpan(s) == 0 by { assert s[0] == '-'; }
    assert s[0..] == s && s[1..] == d;
    assert DropHexPrefix(d) == d by {
      if |d| >= 2 { assert IsHexDigit(d[1]); }
    }
  }

  /** A string of hexadecimal digits after "0x" reads as its value. */
  lemma StrtolHexPrefix(s: string, d: string)
    requires s == "0x" + d && HexSpan(d) == |d|
    ensures Strtol16(s) == HexPrefix(d, |d|)
  {
    assert SpaceSpan(s) == 0 by { assert s[0] == '0'; }
    assert s[0..] == s;
    assert DropHexPrefix(s) == d by { assert s[1] == 'x' && s[2..] == d; }
  }

  /** The colour of a 7-character string that names no colour: the number
      strtol reads from its second character on, or-ed into `prev`. */
  lemma HexColorOf(str: string, prev: Rgba)
    requires |CStr(str)| == PatternLength && Predefined(Lowered(str)).None?
    ensures ParseColor(str, prev) == Some(OredColor(prev, Strtol16(Lowered(str)[1..])))
  {
  }

  /** A negative number sets the high bits of every channel: "#-00001",
      which strtol reads as -1, makes a zeroed colour all ones. */
  lemma MinusOneSetsAllBits()
    ensures OredColor(Black, -1) == Rgba(-1, -1, -1, 255)
  {
  }

  // ---------------------------------------------------------------------
  // The helpers as procedures
  // ---------------------------------------------------------------------

  /** stolower (lines 36-44): fills a calloc'd buffer one character at a
      time. */
  method StoLower(str: string) returns (lstr: string)
    ensures lstr == Lowered(str)
  {
    var len := 0;
    while len < |str| && str[len] != '\0'
      invariant len <= |str| && forall i :: 0 <= i < len ==> str[i] != '\0'
    {
      len := len + 1;
    }
    CStrPrefix(str, len);
    var buf := new char[len + 1](_ => '\0');
    for i := 0 to len
      invariant forall k :: 0 <= k < i ==> buf[k] == ToLower(str[k])
      invariant buf[len] == '\0'
    {
      buf[i] := ToLower(str[i]);
    }
    CStrPrefix(buf[..], len);
    assert buf[..][..len] == Lowered(str);
    lstr := CStr(buf[..]);
  }

  /** find_predefined_color (lines 46-55): walks the table and stops at the
      first name equal to `str` (strcmp). */
  method FindPredefinedColor(str: string, c: GramColor) returns (found: bool)
    modifies c
    ensures found <==> Predefined(str).Some?
    ensures found ==> c.Value() == Predefined(str).value
    ensures !found ==> c.Value() == old(c.Value())
  {
    var name := CStr(str);
    var i := 0;
    while i < |PredefinedColors|
      invariant i <= |PredefinedColors|
      invariant PredefinedFrom(name, i) == Predefined(str)
      invariant c.Value() == old(c.Value())
    {
      if name == PredefinedColors[i].0 {
        c.Set(PredefinedColors[i].1);
        return true;
      }
      i := i + 1;
    }
    return false;
  }

  /** is_color (lines 181-203). */
  method IsColor(str: string, c: GramColor) returns (ok: bool)
    modifies c
    ensures ok <==> ParseColor(str, old(c.Value())).Some?
    ensures ok ==> c.Value() == ParseColor(str, old(c.Value())).value
    ensures !ok ==> c.Value() == old(c.Value())
  {
    var lstr := StoLower(str);
    LoweredIdempotent(str);
    var found := FindPredefinedColor(lstr, c);
    if found {
      return true;
    }
    if |lstr| != PatternLength {
      return false;
    }
    var hex := HexDigits(lstr[1..]);
    c.OrHex(hex);
    return true;
  }

  // ---------------------------------------------------------------------
  // Paths
  // ---------------------------------------------------------------------

  /** The index of the last '/' of `s`, if it has one. */
  function LastSlash(s: string): (k: Option<nat>)
    ensures k.Some? ==> k.value < |s| && s[k.value] == '/'
                        && forall i :: k.value < i < |s| ==> s[i] != '/'
    ensures k.None? ==> forall i :: 0 <= i < |s| ==> s[i] != '/'
  {
    if s == [] then None
    else if s[|s| - 1] == '/' then Some(|s| - 1)
    else LastSlash(s[..|s| - 1])
  }

  /** find_dir_prefix: the index of the last '/' of the C string, 0 when
      there is none. */
  function DirPrefix(src: string): (n: nat)
    ensures LastSlash(CStr(src)).Some? ==> n == LastSlash(CStr(src)).value
    ensures LastSlash(CStr(src)).None? ==> n == 0
  {
    match LastSlash(CStr(src))
    case Some(k) => k
    case None => 0
  }

  /** A path whose only '/' leads it has the prefix of a path with none. */
  lemma LeadingSlashLooksLikeNone()
    ensures DirPrefix("/d.csv") == DirPrefix("d.csv") == 0
  {
    CStrPrefix("/d.csv", 6);
    assert "/d.csv"[..6] == "/d.csv";
    CStrPrefix("d.csv", 5);
    assert "d.csv"[..5] == "d.csv";
    assert LastSlash("d.csv") == None;
  }

  /** find_dir_prefix (lines 305-313): scans back from `strlen`. */
  method FindDirPrefix(src: string) returns (n: nat)
    ensures n == DirPrefix(src)
  {
    var len := 0;
    while len < |src| && src[len] != '\0'
      invariant len <= |src| && forall i :: 0 <= i < len ==> src[i] != '\0'
    {
      len := len + 1;
    }
    CStrPrefix(src, len);
    ghost var s := CStr(src);
    var i := len;
    while i >= 1
      invariant i <= len
      invariant LastSlash(s[..i]) == LastSlash(s)
    {
      if src[i - 1] == '/' {
        return i - 1;
      }
      assert s[..i][..i - 1] == s[..i - 1];
      i := i - 1;
    }
    return 0;
  }

  /** The bytes the path join of l_load_csv writes: `dir_prefix + 1` bytes
      of the script path (its NUL included when the path is empty) and the
      bytes of `lpath`. The buffer has exactly that size, so no NUL follows. */
  function RelPath(src: string, lpath: string): (p: string)
    ensures |p| == DirPrefix(src) + 1 + |CStr(lpath)|
  {
    var s := CStr(src) + ['\0'];
    s[..DirPrefix(src) + 1] + CStr(lpath)
  }

  /** The path the script evidently means: `lpath` relative to the directory
      of the script, itself when the script path has no directory. */
  function ScriptRelativePath(src: string, lpath: string): (p: string)
    ensures LastSlash(CStr(src)).None? ==> p == CStr(lpath)
    ensures LastSlash(CStr(src)).Some? ==>
              p == CStr(src)[..LastSlash(CStr(src)).value + 1] + CStr(lpath)
  {
    match LastSlash(CStr(src))
    case Some(k) => CStr(src)[..k + 1] + CStr(lpath)
    case None => CStr(lpath)
  }

  /** With a '/' in the script path the join is the intended one. */
  lemma RelPathWithDirectory(src: string, lpath: string)
    requires LastSlash(CStr(src)).Some?
    ensures RelPath(src, lpath) == ScriptRelativePath(src, lpath)
  {
    var k := LastSlash(CStr(src)).value;
    assert (CStr(src) + ['\0'])[..k + 1] == CStr(src)[..k + 1];
  }

  /** Without a '/' the join keeps the first byte of the script path:
      "config.lua" and "d.csv" give "cd.csv" where "d.csv" is meant. */
  lemma RelPathKeepsFirstByte(src: string, lpath: string)
    requires src == "config.lua" && lpath == "d.csv"
    ensures RelPath(src, lpath) == "cd.csv"
    ensures ScriptRelativePath(src, lpath) == "d.csv"
  {
    CStrPrefix(src, 10);
    assert src[..10] == src;
    assert forall i :: 0 <= i < 10 ==> src[i] != '/';
    assert LastSlash(src) == None;
    CStrPrefix(lpath, 5);
    assert lpath[..5] == lpath;
    var written := (src + ['\0'])[..1];
    assert written == "c";
    assert written + lpath == "cd.csv";
  }

  /** The path join of l_load_csv (lines 318-321): a calloc'd buffer of
      `dir_prefix + strlen(lpath) + 1` bytes filled by two memcpy calls. */
  method BuildRelPath(src: string, lpath: string) returns (relPath: string)
    ensures relPath == RelPath(src, lpath)
  {
    var prefix := FindDirPrefix(src);
    var s := CStr(src) + ['\0'];
    var l := CStr(lpath);
    assert prefix < |s|;
    var buf := new char[prefix + |l| + 1](_ => '\0');
    forall k | 0 <= k < prefix + 1 {
      buf[k] := s[k];
    }
    forall k | 0 <= k < |l| {
      buf[prefix + 1 + k] := l[k];
    }
    assert buf[..] == s[..prefix + 1] + l;
    relPath := buf[..];
  }
}

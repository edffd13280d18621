/** Byte and character helpers standing in for <ctype.h> and the C string
    conventions the library relies on. Classification follows the "C" locale:
    only ASCII letters and digits are alphanumeric, and case mapping touches
    ASCII letters only. */
module CType {

  /** One byte as `fgetc` returns it when not at end of file. */
  type Byte = b: int | 0 <= b < 256

  /** Every character of `s` fits in one byte. */
  predicate IsByteString(s: string) {
    forall i :: 0 <= i < |s| ==> s[i] as int < 256
  }

  predicate IsUpper(c: char) { 'A' <= c <= 'Z' }
  predicate IsLower(c: char) { 'a' <= c <= 'z' }
  predicate IsDigit(c: char) { '0' <= c <= '9' }

  /** `isalnum` */
  predicate IsAlnum(c: char) { IsUpper(c) || IsLower(c) || IsDigit(c) }

  /** `isspace`: space, \t, \n, \v, \f, \r */
  predicate IsSpace(c: char) { c == ' ' || '\t' <= c <= '\r' }

  /** `tolower` */
  function ToLower(c: char): (r: char)
    ensures IsUpper(c) ==> IsLower(r) && r as int == c as int + 32
    ensures !IsUpper(c) ==> r == c
  {
    if IsUpper(c) then (c as int + 32) as char else c
  }

  /** `toupper` */
  function ToUpper(c: char): (r: char)
    ensures IsLower(c) ==> IsUpper(r) && r as int + 32 == c as int
    ensures !IsLower(c) ==> r == c
  {
    if IsLower(c) then (c as int - 32) as char else c
  }

  /** The string a `char*` buffer denotes: its bytes up to the first NUL. */
  function CStr(s: string): (r: string)
    ensures |r| <= |s| && r == s[..|r|]
    ensures forall i :: 0 <= i < |r| ==> r[i] != '\0'
    ensures |r| < |s| ==> s[|r|] == '\0'
  {
    if s == [] || s[0] == '\0' then [] else [s[0]] + CStr(s[1..])
  }

  /** The prefix of `s` before position `k` is what CStr keeps when it has no
      NUL and `k` ends the string or holds a NUL; and CStr keeps at least
      that prefix when it has no NUL. */
  lemma CStrPrefix(s: string, k: nat)
    requires k <= |s| && forall i :: 0 <= i < k ==> s[i] != '\0'
    ensures |CStr(s)| >= k && CStr(s)[..k] == s[..k]
    ensures k == |s| || s[k] == '\0' ==> CStr(s) == s[..k]
  {
  }

  /** A hexadecimal digit, as `strtol(_, _, 16)` accepts it. */
  predicate IsHexDigit(c: char) { IsDigit(c) || 'a' <= c <= 'f' || 'A' <= c <= 'F' }

  function HexDigitValue(c: char): (v: nat)
    requires IsHexDigit(c)
    ensures v < 16
  {
    if IsDigit(c) then c as int - '0' as int
    else if 'a' <= c <= 'f' then c as int - 'a' as int + 10
    else c as int - 'A' as int + 10
  }
}

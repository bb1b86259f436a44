/** Character-level facts the search engine relies on.

    Strings are sequences of Unicode scalar values, which is what Go yields
    when it ranges over a string. White space is the exact set that Go's
    `unicode.IsSpace` accepts; letter/number classification and lower-casing
    come from large Unicode tables and are kept abstract in `CharClasses`.
 */
module Unicode {

  /** Go's `unicode.IsSpace`: the Latin-1 spaces plus the White_Space table above Latin-1. */
  predicate IsSpace(c: char) {
    var n := c as int;
    || n == 0x09 || n == 0x0A || n == 0x0B || n == 0x0C || n == 0x0D || n == 0x20
    || n == 0x85 || n == 0xA0
    || n == 0x1680 || (0x2000 <= n <= 0x200A)
    || n == 0x2028 || n == 0x2029 || n == 0x202F || n == 0x205F || n == 0x3000
  }

  /** Number of bytes of the UTF-8 encoding of one code point. */
  function Utf8Len(c: char): (n: nat)
    ensures 1 <= n <= 4
    ensures n == 1 <==> (c as int) < 0x80
  {
    var v := c as int;
    if v < 0x80 then 1
    else if v < 0x800 then 2
    else if v < 0x1_0000 then 3
    else 4
  }

  /** Go's `len` of a string: its length in UTF-8 bytes. */
  function ByteLen(s: string): (n: nat)
    ensures |s| <= n <= 4 * |s|
  {
    if |s| == 0 then 0 else Utf8Len(s[0]) + ByteLen(s[1..])
  }

  /** An ASCII string has as many bytes as characters. */
  lemma {:induction false} AsciiByteLen(s: string)
    requires forall i :: 0 <= i < |s| ==> (s[i] as int) < 0x80
    ensures ByteLen(s) == |s|
  {
    if |s| > 0 {
      AsciiByteLen(s[1..]);
    }
  }

  /** The Unicode tables the engine consults without modelling their contents:
      `isLetterOrNumber` is `unicode.IsLetter(c) || unicode.IsNumber(c)` and
      `toLower` is `unicode.ToLower`. */
  datatype CharClasses = CharClasses(isLetterOrNumber: char -> bool, toLower: char -> char)

  /** `strings.ToLower`, which maps every rune through `unicode.ToLower`. */
  function Lower(cc: CharClasses, s: string): (r: string)
    ensures |r| == |s|
    ensures forall i :: 0 <= i < |s| ==> r[i] == cc.toLower(s[i])
  {
    seq(|s|, i requires 0 <= i < |s| => cc.toLower(s[i]))
  }

  predicate AsciiAlnum(c: char) {
    ('a' <= c <= 'z') || ('A' <= c <= 'Z') || ('0' <= c <= '9')
  }

  function AsciiLower(c: char): char {
    if 'A' <= c <= 'Z' then (c as int + 32) as char else c
  }

  /** Every real Unicode table agrees with plain ASCII on the first 128 code points. */
  ghost predicate AsciiFaithful(cc: CharClasses) {
    forall c: char :: (c as int) < 0x80 ==>
      cc.isLetterOrNumber(c) == AsciiAlnum(c) && cc.toLower(c) == AsciiLower(c)
  }
}

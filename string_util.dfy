/** Stand-ins for the string and number helpers the FGD layer calls
    (`ustring::compare` without case sensitivity, `ustring::to_lower`,
    `util::to_int`, `util::to_boolean`). They are defined here on ASCII,
    the way the C library's `tolower` and `atoi` treat the "C" locale. */
module StringUtil {

  /** A 32-bit signed integer, the width of `int32_t` and `int`. */
  newtype int32 = x: int | -0x8000_0000 <= x < 0x8000_0000

  /** Two's-complement truncation of an unbounded integer to 32 bits. */
  function Wrap32(x: int): (r: int32)
    ensures -0x8000_0000 <= x < 0x8000_0000 ==> r as int == x
    ensures (r as int - x) % 0x1_0000_0000 == 0
  {
    ((x + 0x8000_0000) % 0x1_0000_0000 - 0x8000_0000) as int32
  }

  function LowerChar(c: char): char
  {
    if 'A' <= c <= 'Z' then (c as int - 'A' as int + 'a' as int) as char else c
  }

  /** `ustring::to_lower`: every upper-case ASCII letter replaced by its lower-case form. */
  function Lower(s: string): (r: string)
    ensures |r| == |s|
    ensures forall i :: 0 <= i < |s| ==> r[i] == LowerChar(s[i])
  {
    seq(|s|, i requires 0 <= i < |s| => LowerChar(s[i]))
  }

  /** `ustring::compare(a, b, false)`: equal up to ASCII letter case. */
  predicate EqualsIgnoreCase(a: string, b: string)
  {
    Lower(a) == Lower(b)
  }

  /** `ustring::compare(s, keyword, false)` against one of the fixed keywords of the format.
      Every keyword is written here in lower case (`@BaseClass` as `@baseclass`), which
      compares the same; `EqualsIgnoreCaseKeyword` states the equivalence. */
  predicate MatchesKeyword(s: string, keyword: string)
  {
    Lower(s) == keyword
  }

  /** A string without upper-case letters, such as every keyword the FGD layer compares against. */
  predicate IsLowerCase(s: string)
  {
    forall i :: 0 <= i < |s| ==> !('A' <= s[i] <= 'Z')
  }

  /** Lowering a string without upper-case letters leaves it alone. */
  lemma LowerOfLowerCase(s: string)
    requires IsLowerCase(s)
    ensures Lower(s) == s
  {
  }

  /** Lowering twice is lowering once. */
  lemma LowerIdempotent(s: string)
    ensures Lower(Lower(s)) == Lower(s)
  {
  }

  /** Comparing against a lower-case keyword is comparing the lowered string with it. */
  lemma EqualsIgnoreCaseKeyword(s: string, keyword: string)
    requires IsLowerCase(keyword)
    ensures EqualsIgnoreCase(s, keyword) <==> MatchesKeyword(s, keyword)
  {
    LowerOfLowerCase(keyword);
  }

  predicate IsSpace(c: char)
  {
    c == ' ' || c == '\t' || c == '\n' || c == '\r' || c == '\U{B}' || c == '\U{C}'
  }

  predicate IsDigit(c: char)
  {
    '0' <= c <= '9'
  }

  function DropSpace(s: string): (r: string)
    ensures |r| <= |s|
    decreases |s|
  {
    if |s| > 0 && IsSpace(s[0]) then DropSpace(s[1..]) else s
  }

  /** The longest prefix of `s` made of decimal digits. */
  function DigitRun(s: string): (r: string)
    ensures |r| <= |s| && r == s[..|r|]
    ensures forall i :: 0 <= i < |r| ==> IsDigit(r[i])
    ensures |r| < |s| ==> !IsDigit(s[|r|])
    decreases |s|
  {
    if |s| > 0 && IsDigit(s[0]) then [s[0]] + DigitRun(s[1..]) else []
  }

  /** The number a string of decimal digits denotes. */
  function DigitsValue(d: string): nat
    requires forall i :: 0 <= i < |d| ==> IsDigit(d[i])
    decreases |d|
  {
    if |d| == 0 then 0
    else
      assert IsDigit(d[|d| - 1]);
      DigitsValue(d[..|d| - 1]) * 10 + (d[|d| - 1] as int - '0' as int)
  }

  /** `util::to_int`, read as `atoi`: leading white space, an optional sign and the
      longest run of digits after it; anything else yields 0. The value is truncated
      to 32 bits, which is one reading of an overflow the C library leaves undefined. */
  function ToInt(s: string): int32
  {
    var t := DropSpace(s);
    if |t| > 0 && t[0] == '-' then Wrap32(0 - DigitsValue(DigitRun(t[1..])) as int)
    else if |t| > 0 && t[0] == '+' then Wrap32(DigitsValue(DigitRun(t[1..])))
    else Wrap32(DigitsValue(DigitRun(t)))
  }

  /** `util::to_boolean`: "true", "yes" and "on" in any letter case are true, every other
      string is true exactly when it reads as a non-zero integer. */
  function ToBoolean(s: string): bool
  {
    EqualsIgnoreCase(s, "true") || EqualsIgnoreCase(s, "yes") || EqualsIgnoreCase(s, "on")
    || ToInt(s) != 0
  }
}

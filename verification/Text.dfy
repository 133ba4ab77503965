/** Bytes, C strings and the little number formats that several parts of the program share. */
module Text {
  import opened Options

  /** One 8-bit C char. */
  type byte = c: char | c as int < 256 witness 'a'

  type bytes = seq<byte>

  const NUL: byte := '\0'

  /** A C string: what precedes the terminating NUL. */
  predicate NoNul(s: bytes) {
    forall i :: 0 <= i < |s| ==> s[i] != NUL
  }

  /** The C string at the start of a buffer: up to the first NUL, if any. */
  function StrNDup(data: bytes): (s: bytes)
    ensures |s| <= |data|
  {
    if data == [] || data[0] == NUL then [] else [data[0]] + StrNDup(data[1..])
  }

  lemma {:induction false} StrNDupIs(s: bytes, tail: bytes)
    requires NoNul(s) && (tail == [] || tail[0] == NUL)
    ensures StrNDup(s + tail) == s
  {
    if s == [] {
      assert s + tail == tail;
    } else {
      StrNDupIs(s[1..], tail);
      assert (s + tail)[1..] == s[1..] + tail;
    }
  }

  /** Reading s[i] of a C string, whose terminator may be read too. */
  function At(s: bytes, i: nat): byte {
    if i < |s| then s[i] else NUL
  }

  predicate IsDigit(c: char) {
    '0' <= c <= '9'
  }

  predicate IsHex(c: char) {
    '0' <= c <= '9' || 'a' <= c <= 'f' || 'A' <= c <= 'F'
  }

  /** g_ascii_isspace */
  predicate IsSpace(c: char) {
    c == ' ' || c == '\t' || c == '\n' || c == '\r' || c as int == 12
  }

  /** g_ascii_isprint */
  predicate IsPrint(c: char) {
    32 <= c as int <= 126
  }

  predicate AllDigits(s: bytes) {
    forall i :: 0 <= i < |s| ==> IsDigit(s[i])
  }

  /** The character classes by their codes. */
  lemma CharClasses(c: byte)
    ensures IsSpace(c) <==> c as int in {9, 10, 12, 13, 32}
    ensures IsDigit(c) <==> c as int in {48, 49, 50, 51, 52, 53, 54, 55, 56, 57}
    ensures IsHex(c) <==> IsDigit(c) || 65 <= c as int < 71 || 97 <= c as int < 103
    ensures IsPrint(c) <==> 32 <= c as int < 127
    ensures c as int in {9, 10, 12, 13} ==> !IsPrint(c)
  {
  }

  predicate HasPrefix(s: bytes, prefix: bytes) {
    |s| >= |prefix| && s[..|prefix|] == prefix
  }

  predicate HasSuffix(s: bytes, suffix: bytes) {
    |s| >= |suffix| && s[|s| - |suffix|..] == suffix
  }

  /** g_ascii_tolower */
  function Lower(c: byte): byte {
    if 'A' <= c <= 'Z' then (c as int + 32) as char else c
  }

  // ---------------------------------------------------------------- hexadecimal

  function HexVal(c: char): (v: nat)
    requires IsHex(c)
    ensures v < 16
  {
    if c <= '9' then c as int - '0' as int
    else if c <= 'F' then c as int - 'A' as int + 10
    else c as int - 'a' as int + 10
  }

  function HexDigit(v: nat, upper: bool): (c: byte)
    requires v < 16
    ensures IsHex(c) && HexVal(c) == v
  {
    if v < 10 then ('0' as int + v) as char
    else if upper then ('A' as int + v - 10) as char
    else ('a' as int + v - 10) as char
  }

  /** "%02X" or "%02x" */
  function HexByte(b: byte, upper: bool): (s: bytes)
    ensures |s| == 2 && IsHex(s[0]) && IsHex(s[1])
    ensures 16 * HexVal(s[0]) + HexVal(s[1]) == b as int
  {
    [HexDigit(b as int / 16, upper), HexDigit(b as int % 16, upper)]
  }

  /** The digits by their codes. */
  lemma HexDigitCodes(v: nat, upper: bool)
    requires v < 16
    ensures HexDigit(v, upper) as int == if v < 10 then 48 + v else if upper then 55 + v else 87 + v
    ensures HexVal(HexDigit(v, upper)) == v
  {
  }

  // ---------------------------------------------------------------- decimal

  function DigitVal(c: char): nat
    requires IsDigit(c)
  {
    c as int - '0' as int
  }

  function Digit(v: nat): (c: byte)
    requires v < 10
    ensures IsDigit(c) && DigitVal(c) == v
  {
    ('0' as int + v) as char
  }

  /** "%u" */
  function Dec(n: nat): (s: bytes)
    ensures s != [] && AllDigits(s)
  {
    if n < 10 then [Digit(n)] else Dec(n / 10) + [Digit(n % 10)]
  }

  function DecVal(s: bytes): nat
    requires AllDigits(s)
  {
    if s == [] then 0 else DecVal(s[..|s| - 1]) * 10 + DigitVal(s[|s| - 1])
  }

  lemma {:induction false} DecRoundTrip(n: nat)
    ensures DecVal(Dec(n)) == n
  {
    if n >= 10 {
      DecRoundTrip(n / 10);
      assert Dec(n)[..|Dec(n)| - 1] == Dec(n / 10);
    }
  }

  /** A printed number starts with a zero only if it is zero. */
  lemma {:induction false} DecLeading(n: nat)
    ensures n == 0 ==> Dec(n) == "0"
    ensures n > 0 ==> Dec(n)[0] != '0'
  {
    if n >= 10 { DecLeading(n / 10); }
  }

  lemma {:induction false} DecValZero(s: bytes)
    requires AllDigits(s) && (s == [] || s[0] != '0')
    ensures DecVal(s) == 0 <==> s == []
  {
    if s != [] {
      DecValZero(s[..|s| - 1]);
    }
  }

  /** Decimal digits without a leading zero are determined by their value. */
  lemma {:induction false} DecUnique(s: bytes)
    requires AllDigits(s) && s != [] && (s[0] != '0' || |s| == 1)
    ensures Dec(DecVal(s)) == s
  {
    var n := |s| - 1;
    if n == 0 {
      assert s == [s[0]] && s[..n] == [];
      assert DecVal(s) == DigitVal(s[0]);
    } else {
      DecUnique(s[..n]);
      DecValZero(s[..n]);
      assert s == s[..n] + [s[n]];
    }
  }

  // ---------------------------------------------------------------- _nm_utils_ascii_str_to_int64

  function SkipSpaces(s: bytes): (t: bytes)
    ensures |t| <= |s| && (t != [] ==> !IsSpace(t[0]))
  {
    if s != [] && IsSpace(s[0]) then SkipSpaces(s[1..]) else s
  }

  function DigitSpan(s: bytes): (n: nat)
    ensures n <= |s| && AllDigits(s[..n])
    ensures n < |s| ==> !IsDigit(s[n])
  {
    if s != [] && IsDigit(s[0]) then
      assert s[1..][..DigitSpan(s[1..])] == s[..1 + DigitSpan(s[1..])][1..];
      1 + DigitSpan(s[1..])
    else 0
  }

  const INT64_MAX: int := 0x7FFF_FFFF_FFFF_FFFF

  /** The whole string, spaces around it aside, must be a number within [min, max] that fits 64 bits. */
  function StrToInt64(str: bytes, min: int, max: int): Option<int> {
    var s := SkipSpaces(str);
    var neg := s != [] && s[0] == '-';
    var t := if s != [] && (s[0] == '-' || s[0] == '+') then s[1..] else s;
    var n := DigitSpan(t);
    if n == 0 || SkipSpaces(t[n..]) != [] then None
    else
      var v: int := if neg then 0 - DecVal(t[..n]) else DecVal(t[..n]);
      if v > INT64_MAX || v < -INT64_MAX - 1 || v > max || v < min then None else Some(v)
  }

  lemma {:induction false} DigitSpanAll(s: bytes)
    requires AllDigits(s)
    ensures DigitSpan(s) == |s|
  {
    if s != [] { DigitSpanAll(s[1..]); }
  }

  /** On digits only, the conversion is the decimal value, if that is in range. */
  lemma StrToInt64Digits(s: bytes, min: int, max: int)
    requires AllDigits(s) && s != [] && max <= INT64_MAX
    ensures StrToInt64(s, min, max) == if min <= DecVal(s) <= max then Some(DecVal(s)) else None
  {
    hide DecVal, DigitSpan;
    assert IsDigit(s[0]) && SkipSpaces(s) == s;
    DigitSpanAll(s);
    assert s[..|s|] == s && s[|s|..] == [];
  }

  lemma StrToInt64Dec(n: nat, min: int, max: int)
    requires min <= n <= max <= INT64_MAX
    ensures StrToInt64(Dec(n), min, max) == Some(n)
  {
    DecRoundTrip(n);
    StrToInt64Digits(Dec(n), min, max);
  }
}

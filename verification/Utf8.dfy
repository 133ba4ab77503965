/** g_utf8_validate on a given number of bytes (section 4 of RFC 3629); a NUL among them is invalid. */
module Utf8 {
  import opened Text

  predicate Between(s: bytes, i: nat, lo: nat, hi: nat) {
    i < |s| && lo <= s[i] as int <= hi
  }

  /** The length of the well-formed character at the start, or 0. */
  function CharLength(s: bytes): (n: nat)
    ensures n <= |s| && n <= 4
    ensures forall i :: 0 <= i < n ==> s[i] != NUL
  {
    if Between(s, 0, 0x01, 0x7F) then 1
    else if Between(s, 0, 0xC2, 0xDF) && Between(s, 1, 0x80, 0xBF) then 2
    else if Between(s, 0, 0xE0, 0xEF)
         && Between(s, 1, if s[0] as int == 0xE0 then 0xA0 else 0x80, if s[0] as int == 0xED then 0x9F else 0xBF)
         && Between(s, 2, 0x80, 0xBF) then 3
    else if Between(s, 0, 0xF0, 0xF4)
         && Between(s, 1, if s[0] as int == 0xF0 then 0x90 else 0x80, if s[0] as int == 0xF4 then 0x8F else 0xBF)
         && Between(s, 2, 0x80, 0xBF) && Between(s, 3, 0x80, 0xBF) then 4
    else 0
  }

  predicate Valid(s: bytes)
    decreases |s|
  {
    s == [] || (CharLength(s) > 0 && Valid(s[CharLength(s)..]))
  }

  /** The code points that have an encoding here: no surrogates, and no NUL. */
  predicate Scalar(cp: int) {
    0 < cp < 0x11_0000 && !(0xD800 <= cp < 0xE000)
  }

  /** The bits of a code point, six to a continuation byte. */
  function Encoded(cp: int): bytes
    requires Scalar(cp)
  {
    if cp < 0x80 then [cp as char]
    else if cp < 0x800 then [(0xC0 + cp / 64) as char, (0x80 + cp % 64) as char]
    else if cp < 0x1_0000 then
      [(0xE0 + cp / 4096) as char, (0x80 + cp / 64 % 64) as char, (0x80 + cp % 64) as char]
    else
      [(0xF0 + cp / 262144) as char, (0x80 + cp / 4096 % 64) as char, (0x80 + cp / 64 % 64) as char,
       (0x80 + cp % 64) as char]
  }

  lemma ShortEncoded(a: nat, b: nat)
    requires b < 64
    ensures 0 < a < 0x80 ==> Encoded(a) == [a as char]
    ensures 0xC2 <= a < 0xE0 ==> Encoded((a - 0xC0) * 64 + b) == [a as char, (0x80 + b) as char]
  {
  }

  lemma ThreeEncoded(a: nat, b: nat, c: nat)
    requires a < 16 && b < 64 && c < 64 && (a == 0 ==> b >= 32) && (a == 13 ==> b < 32)
    ensures var cp := a * 4096 + b * 64 + c;
            Scalar(cp) && Encoded(cp) == [(0xE0 + a) as char, (0x80 + b) as char, (0x80 + c) as char]
  {
    var cp := a * 4096 + b * 64 + c;
    assert cp / 64 == a * 64 + b && cp / 4096 == a;
  }

  lemma FourEncoded(a: nat, b: nat, c: nat, d: nat)
    requires a < 5 && b < 64 && c < 64 && d < 64 && (a == 0 ==> b >= 16) && (a == 4 ==> b < 16)
    ensures var cp := a * 262144 + b * 4096 + c * 64 + d;
            Scalar(cp)
            && Encoded(cp) == [(0xF0 + a) as char, (0x80 + b) as char, (0x80 + c) as char, (0x80 + d) as char]
  {
    var cp := a * 262144 + b * 4096 + c * 64 + d;
    assert cp / 64 == a * 4096 + b * 64 + c && cp / 4096 == a * 64 + b;
  }

  lemma ShortIsWellFormed(a: nat, b: nat, rest: bytes)
    requires b < 64
    ensures 0 < a < 0x80 ==> CharLength([a as char] + rest) == 1
    ensures 0xC2 <= a < 0xE0 ==> CharLength([a as char, (0x80 + b) as char] + rest) == 2
  {
  }

  lemma ThreeIsWellFormed(a: nat, b: nat, c: nat, rest: bytes)
    requires a < 16 && b < 64 && c < 64 && (a == 0 ==> b >= 32) && (a == 13 ==> b < 32)
    ensures CharLength([(0xE0 + a) as char, (0x80 + b) as char, (0x80 + c) as char] + rest) == 3
  {
  }

  lemma FourIsWellFormed(a: nat, b: nat, c: nat, d: nat, rest: bytes)
    requires a < 5 && b < 64 && c < 64 && d < 64 && (a == 0 ==> b >= 16) && (a == 4 ==> b < 16)
    ensures CharLength([(0xF0 + a) as char, (0x80 + b) as char, (0x80 + c) as char, (0x80 + d) as char] + rest) == 4
  {
  }

  lemma EncodedIsWellFormed(cp: int, rest: bytes)
    requires Scalar(cp)
    ensures CharLength(Encoded(cp) + rest) == |Encoded(cp)|
  {
    hide CharLength, Encoded;
    var low, high := cp % 64, cp / 64;
    if cp < 0x80 {
      ShortEncoded(cp, 0);
      ShortIsWellFormed(cp, 0, rest);
    } else if cp < 0x800 {
      ShortEncoded(0xC0 + high, low);
      ShortIsWellFormed(0xC0 + high, low, rest);
    } else if cp < 0x1_0000 {
      ThreeEncoded(high / 64, high % 64, low);
      ThreeIsWellFormed(high / 64, high % 64, low, rest);
    } else {
      FourEncoded(high / 64 / 64, high / 64 % 64, high % 64, low);
      FourIsWellFormed(high / 64 / 64, high / 64 % 64, high % 64, low, rest);
    }
  }

  function CodePoint(s: bytes): int
    requires CharLength(s) > 0
  {
    var n := CharLength(s);
    if n == 1 then s[0] as int
    else if n == 2 then (s[0] as int - 0xC0) * 64 + (s[1] as int - 0x80)
    else if n == 3 then (s[0] as int - 0xE0) * 4096 + (s[1] as int - 0x80) * 64 + (s[2] as int - 0x80)
    else (s[0] as int - 0xF0) * 262144 + (s[1] as int - 0x80) * 4096 + (s[2] as int - 0x80) * 64 + (s[3] as int - 0x80)
  }

  lemma WellFormedIsEncoded(s: bytes)
    requires CharLength(s) > 0
    ensures Scalar(CodePoint(s)) && Encoded(CodePoint(s)) == s[..CharLength(s)]
  {
    hide Encoded;
    var n := CharLength(s);
    assert n == 1 ==> s[..n] == [s[0]];
    assert n == 2 ==> s[..n] == [s[0], s[1]];
    assert n == 3 ==> s[..n] == [s[0], s[1], s[2]];
    assert n == 4 ==> s[..n] == [s[0], s[1], s[2], s[3]];
    if n <= 2 {
      ShortEncoded(s[0] as int, if n == 2 then s[1] as int - 0x80 else 0);
    } else if n == 3 {
      ThreeEncoded(s[0] as int - 0xE0, s[1] as int - 0x80, s[2] as int - 0x80);
    } else {
      FourEncoded(s[0] as int - 0xF0, s[1] as int - 0x80, s[2] as int - 0x80, s[3] as int - 0x80);
    }
  }

  function EncodedAll(cps: seq<int>): bytes
    requires forall i :: 0 <= i < |cps| ==> Scalar(cps[i])
  {
    if cps == [] then [] else Encoded(cps[0]) + EncodedAll(cps[1..])
  }

  /** Valid text is exactly what encodes some code points. */
  lemma {:induction false} TextIsValid(cps: seq<int>)
    requires forall i :: 0 <= i < |cps| ==> Scalar(cps[i])
    ensures Valid(EncodedAll(cps))
  {
    if cps != [] {
      TextIsValid(cps[1..]);
      EncodedIsWellFormed(cps[0], EncodedAll(cps[1..]));
      assert EncodedAll(cps)[|Encoded(cps[0])|..] == EncodedAll(cps[1..]);
    }
  }

  lemma {:induction false} ValidIsText(s: bytes) returns (cps: seq<int>)
    requires Valid(s)
    ensures (forall i :: 0 <= i < |cps| ==> Scalar(cps[i])) && s == EncodedAll(cps)
    decreases |s|
  {
    cps := [];
    if s != [] {
      var n := CharLength(s);
      WellFormedIsEncoded(s);
      var rest := ValidIsText(s[n..]);
      cps := [CodePoint(s)] + rest;
      assert cps[1..] == rest;
      assert s == s[..n] + s[n..];
    }
  }

  lemma {:induction false} ValidNoNul(s: bytes)
    requires Valid(s)
    ensures NoNul(s)
    decreases |s|
  {
    if s != [] {
      var n := CharLength(s);
      ValidNoNul(s[n..]);
      forall i | 0 <= i < |s| ensures s[i] != NUL {
        if i >= n { assert s[i] == s[n..][i - n]; }
      }
    }
  }

  /** ASCII text is valid. */
  lemma {:induction false} AsciiIsValid(s: bytes)
    requires forall i :: 0 <= i < |s| ==> 0 < s[i] as int < 0x80
    ensures Valid(s)
    decreases |s|
  {
    if s != [] {
      assert CharLength(s) == 1;
      AsciiIsValid(s[1..]);
    }
  }
}

/** Base64 as in section 4 of RFC 4648: the encoder, the lenient decoder of GLib, which passes over
    characters outside the alphabet, and the strict form that certificates insist on. */
module Base64 {
  import opened Text

  function Char64(v: nat): (c: byte)
    requires v < 64
  {
    if v < 26 then ('A' as int + v) as char
    else if v < 52 then ('a' as int + v - 26) as char
    else if v < 62 then ('0' as int + v - 52) as char
    else if v == 62 then '+'
    else '/'
  }

  predicate InAlphabet(c: char) {
    'A' <= c <= 'Z' || 'a' <= c <= 'z' || '0' <= c <= '9' || c == '+' || c == '/'
  }

  /** The value of a character; padding counts as zero. */
  function Rank(c: char): (v: nat)
    requires InAlphabet(c) || c == '='
    ensures v < 64
  {
    if 'A' <= c <= 'Z' then c as int - 'A' as int
    else if 'a' <= c <= 'z' then c as int - 'a' as int + 26
    else if '0' <= c <= '9' then c as int - '0' as int + 52
    else if c == '+' then 62
    else if c == '/' then 63
    else 0
  }

  lemma CharRank(v: nat)
    requires v < 64
    ensures InAlphabet(Char64(v)) && Rank(Char64(v)) == v
  {
  }

  function First(a: nat): nat { a / 4 }
  function Second(a: nat, b: nat): nat { a % 4 * 16 + b / 16 }
  function Third(b: nat, c: nat): nat { b % 16 * 4 + c / 64 }
  function Fourth(c: nat): nat { c % 64 }

  function EncodeGroup(a: byte, b: byte, c: byte): (s: bytes)
    ensures |s| == 4
  {
    [Char64(First(a as int)), Char64(Second(a as int, b as int)),
     Char64(Third(b as int, c as int)), Char64(Fourth(c as int))]
  }

  function Encode(data: bytes): bytes {
    if data == [] then []
    else if |data| == 1 then EncodeGroup(data[0], NUL, NUL)[..2] + "=="
    else if |data| == 2 then EncodeGroup(data[0], data[1], NUL)[..3] + "="
    else EncodeGroup(data[0], data[1], data[2]) + Encode(data[3..])
  }

  predicate Significant(c: char) {
    InAlphabet(c) || c == '='
  }

  function Keep(s: bytes): (t: bytes)
    ensures forall i :: 0 <= i < |t| ==> Significant(t[i])
  {
    if s == [] then [] else (if Significant(s[0]) then [s[0]] else []) + Keep(s[1..])
  }

  function DecodeGroup(p: char, q: char, r: char, s: char): bytes
    requires Significant(p) && Significant(q) && Significant(r) && Significant(s)
  {
    [(Rank(p) * 4 + Rank(q) / 16) as char]
    + (if r != '=' then [(Rank(q) % 16 * 16 + Rank(r) / 4) as char] else [])
    + (if s != '=' then [(Rank(r) % 4 * 64 + Rank(s)) as char] else [])
  }

  function DecodeGroups(t: bytes): bytes
    requires forall i :: 0 <= i < |t| ==> Significant(t[i])
  {
    if |t| < 4 then [] else DecodeGroup(t[0], t[1], t[2], t[3]) + DecodeGroups(t[4..])
  }

  /** g_base64_decode */
  function Decode(s: bytes): bytes {
    DecodeGroups(Keep(s))
  }

  // ---------------------------------------------------------------- the code itself

  /** The alphabet of section 4 of RFC 4648, by character codes. */
  lemma Alphabet(v: nat)
    requires v < 64
    ensures v < 26 ==> Char64(v) as int == 65 + v
    ensures 26 <= v < 52 ==> Char64(v) as int == 97 + (v - 26)
    ensures 52 <= v < 62 ==> Char64(v) as int == 48 + (v - 52)
    ensures v == 62 ==> Char64(v) as int == 43
    ensures v == 63 ==> Char64(v) as int == 47
  {
  }

  function Number(a: nat, b: nat, c: nat): nat {
    a * 0x1_0000 + b * 0x100 + c
  }

  /** Four characters stand for the 24-bit number of three bytes, in digits to the base of 64. */
  lemma GroupMeans(a: byte, b: byte, c: byte)
    ensures var s := EncodeGroup(a, b, c);
            && (forall i :: 0 <= i < 4 ==> InAlphabet(s[i]))
            && ((Rank(s[0]) * 64 + Rank(s[1])) * 64 + Rank(s[2])) * 64 + Rank(s[3]) ==
               Number(a as int, b as int, c as int)
  {
    hide Char64, Rank;
    GroupInAlphabet(a, b, c);
    CharRank(First(a as int));
    CharRank(Second(a as int, b as int));
    CharRank(Third(b as int, c as int));
    CharRank(Fourth(c as int));
  }

  /** Missing bytes count as zero, and their characters are padding. */
  lemma EndsMean(data: bytes)
    requires |data| == 1 || |data| == 2
    ensures var s, g := Encode(data), EncodeGroup(data[0], if |data| == 2 then data[1] else NUL, NUL);
            s == if |data| == 1 then [g[0], g[1], '=', '='] else [g[0], g[1], g[2], '=']
  {
  }

  lemma {:induction false} KeepJoin(a: bytes, b: bytes)
    ensures Keep(a + b) == Keep(a) + Keep(b)
  {
    if a == [] {
      assert a + b == b;
    } else {
      KeepJoin(a[1..], b);
      assert (a + b)[1..] == a[1..] + b;
    }
  }

  /** Characters outside the alphabet, line breaks for one, are passed over wherever they stand. */
  lemma JunkIsIgnored(a: bytes, junk: bytes, b: bytes)
    requires forall i :: 0 <= i < |junk| ==> !InAlphabet(junk[i]) && junk[i] != '='
    ensures Decode(a + junk + b) == Decode(a + b)
  {
    NothingKept(junk);
    KeepJoin(a + junk, b);
    KeepJoin(a, junk);
    KeepJoin(a, b);
    assert Keep(a) + [] == Keep(a);
  }

  lemma {:induction false} NothingKept(junk: bytes)
    requires forall i :: 0 <= i < |junk| ==> !Significant(junk[i])
    ensures Keep(junk) == []
  {
    if junk != [] { NothingKept(junk[1..]); }
  }

  // ---------------------------------------------------------------- round trip

  lemma {:induction false} KeepAll(s: bytes)
    requires forall i :: 0 <= i < |s| ==> Significant(s[i])
    ensures Keep(s) == s
  {
    if s != [] { KeepAll(s[1..]); }
  }

  /** The whole text is alphabet, except that up to two last characters may be padding. */
  predicate Strict(s: bytes) {
    && |s| % 4 == 0
    && (forall i :: 0 <= i < |s| - 2 ==> InAlphabet(s[i]))
    && (|s| >= 2 ==> (InAlphabet(s[|s| - 2]) && (InAlphabet(s[|s| - 1]) || s[|s| - 1] == '='))
                     || (s[|s| - 2] == '=' && s[|s| - 1] == '='))
  }

  lemma GroupInAlphabet(a: byte, b: byte, c: byte)
    ensures forall i :: 0 <= i < 4 ==> InAlphabet(EncodeGroup(a, b, c)[i])
  {
    CharRank(First(a as int));
    CharRank(Second(a as int, b as int));
    CharRank(Third(b as int, c as int));
    CharRank(Fourth(c as int));
  }

  lemma StrictCons(g: bytes, s: bytes)
    requires |g| == 4 && (forall i :: 0 <= i < 4 ==> InAlphabet(g[i])) && Strict(s)
    ensures Strict(g + s)
  {
    var t := g + s;
    forall i | 0 <= i < |t| - 2 ensures InAlphabet(t[i]) {
      if i < 4 {
        assert t[i] == g[i];
      } else {
        assert t[i] == s[i - 4];
      }
    }
  }

  lemma {:induction false} EncodeIsStrict(data: bytes)
    ensures Strict(Encode(data))
    ensures |Encode(data)| == (|data| + 2) / 3 * 4
    decreases |data|
  {
    hide EncodeGroup, InAlphabet;
    if |data| == 1 {
      GroupInAlphabet(data[0], NUL, NUL);
    } else if |data| == 2 {
      GroupInAlphabet(data[0], data[1], NUL);
    } else if |data| > 2 {
      GroupInAlphabet(data[0], data[1], data[2]);
      EncodeIsStrict(data[3..]);
      StrictCons(EncodeGroup(data[0], data[1], data[2]), Encode(data[3..]));
    }
  }

  lemma GroupRanks(a: byte, b: byte, c: byte)
    ensures var s := EncodeGroup(a, b, c);
            && (forall i :: 0 <= i < 4 ==> InAlphabet(s[i]) && s[i] != '=')
            && Rank(s[0]) == First(a as int) && Rank(s[1]) == Second(a as int, b as int)
            && Rank(s[2]) == Third(b as int, c as int) && Rank(s[3]) == Fourth(c as int)
  {
    GroupInAlphabet(a, b, c);
    CharRank(First(a as int));
    CharRank(Second(a as int, b as int));
    CharRank(Third(b as int, c as int));
    CharRank(Fourth(c as int));
  }

  lemma GroupRoundTrip(a: byte, b: byte, c: byte)
    ensures forall i :: 0 <= i < 4 ==> InAlphabet(EncodeGroup(a, b, c)[i])
    ensures var s := EncodeGroup(a, b, c); DecodeGroup(s[0], s[1], s[2], s[3]) == [a, b, c]
    ensures b == NUL && c == NUL ==>
              var s := EncodeGroup(a, b, c); DecodeGroup(s[0], s[1], '=', '=') == [a]
    ensures c == NUL ==> var s := EncodeGroup(a, b, c); DecodeGroup(s[0], s[1], s[2], '=') == [a, b]
  {
    hide EncodeGroup, Rank, First, Second, Third, Fourth;
    GroupRanks(a, b, c);
    Bits(a as int, b as int, c as int);
  }

  /** Three bytes cut into four sixes and put together again. */
  lemma Bits(a: nat, b: nat, c: nat)
    requires a < 256 && b < 256 && c < 256
    ensures First(a) * 4 + Second(a, b) / 16 == a
    ensures Second(a, b) % 16 * 16 + Third(b, c) / 4 == b
    ensures Third(b, c) % 4 * 64 + Fourth(c) == c
    ensures Second(a, 0) % 16 == 0 && Third(b, 0) % 4 == 0
  {
  }

  lemma {:induction false} GroupsRoundTrip(data: bytes)
    ensures forall i :: 0 <= i < |Encode(data)| ==> Significant(Encode(data)[i])
    ensures DecodeGroups(Encode(data)) == data
    decreases |data|
  {
    hide EncodeGroup, DecodeGroup, InAlphabet, Rank, Char64;
    var s := Encode(data);
    if |data| == 1 {
      GroupRoundTrip(data[0], NUL, NUL);
      assert s[4..] == [];
    } else if |data| == 2 {
      GroupRoundTrip(data[0], data[1], NUL);
      assert s[4..] == [];
    } else if |data| > 2 {
      GroupRoundTrip(data[0], data[1], data[2]);
      GroupsRoundTrip(data[3..]);
      assert s[4..] == Encode(data[3..]);
    }
  }

  /** Decoding undoes encoding. */
  lemma RoundTrip(data: bytes)
    ensures Decode(Encode(data)) == data
  {
    GroupsRoundTrip(data);
    KeepAll(Encode(data));
  }

  /** The character loop of cert_parser that insists on strict base64. */
  method IsStrict(cdata: bytes) returns (valid: bool)
    ensures valid == Strict(cdata)
  {
    valid := |cdata| % 4 == 0;
    if !valid {
      return;
    }
    var i := 0;
    while i < |cdata|
      invariant 0 <= i <= |cdata| && valid
      invariant forall j :: 0 <= j < i ==> InAlphabet(cdata[j])
    {
      if !InAlphabet(cdata[i]) {
        if cdata[i] != '=' || i < |cdata| - 2 {
          return false;
        }
        while i < |cdata|
          invariant |cdata| - 2 <= i <= |cdata|
          invariant forall j :: 0 <= j < |cdata| - 2 ==> InAlphabet(cdata[j])
          invariant exists p :: |cdata| - 2 <= p < |cdata| && cdata[p] == '=' && p <= i
                                && (forall j :: 0 <= j < p ==> InAlphabet(cdata[j]))
                                && (forall j :: p <= j < i && valid ==> cdata[j] == '=')
          invariant !valid ==> !Strict(cdata)
        {
          if cdata[i] != '=' {
            valid := false;
          }
          i := i + 1;
        }
        return;
      }
      i := i + 1;
    }
  }
}

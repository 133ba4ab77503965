/** nm_keyfile_key_encode and nm_keyfile_key_decode: any NUL-free name as a key that GKeyFile accepts. */
module KeyCodec {
  import opened Text

  /** A backslash followed by two hex digits, which the decoder would take for an escape. */
  predicate LooksEscaped(s: bytes) {
    At(s, 0) == '\\' && IsHex(At(s, 1)) && IsHex(At(s, 2))
  }

  /** Whether the first character of the rest of a name has to be escaped. */
  predicate MustEscape(s: bytes)
    requires s != []
  {
    || s[0] as int < 0x20 || s[0] as int >= 127
    || s[0] == '=' || s[0] == '[' || s[0] == ']'
    || LooksEscaped(s)
    || (s[0] == ' ' && At(s, 1) == NUL)
  }

  function Escape(c: byte): bytes {
    "\\" + HexByte(c, true)
  }

  /** One pass over the rest of a name. */
  function EncodeRest(s: bytes): bytes {
    if s == [] then [] else (if MustEscape(s) then Escape(s[0]) else [s[0]]) + EncodeRest(s[1..])
  }

  function Encode(name: bytes): bytes {
    if name == [] then "\\00"
    else if name[0] == ' ' then "\\20" + EncodeRest(name[1..])
    else EncodeRest(name)
  }

  /** One pass over the rest of a key; an escape of NUL is no escape. */
  function DecodeRest(key: bytes): bytes {
    if key == [] then []
    else if LooksEscaped(key) && EscapeVal(key) != 0 then [EscapeVal(key) as char] + DecodeRest(key[3..])
    else [key[0]] + DecodeRest(key[1..])
  }

  function EscapeVal(key: bytes): (v: nat)
    requires LooksEscaped(key)
    ensures v < 256
  {
    16 * HexVal(At(key, 1)) + HexVal(At(key, 2))
  }

  function Decode(key: bytes): bytes {
    if key == "\\00" then [] else DecodeRest(key)
  }

  // ---------------------------------------------------------------- decoding undoes encoding

  /** What is seen of an encoded rest where a hex digit is looked for: the hex digit itself, or none. */
  lemma HexShowsThrough(s: bytes)
    ensures IsHex(At(EncodeRest(s), 0)) <==> IsHex(At(s, 0))
    ensures IsHex(At(s, 0)) ==> EncodeRest(s) == [s[0]] + EncodeRest(s[1..])
  {
  }

  lemma LookaheadSurvives(s: bytes)
    requires s != [] && !MustEscape(s)
    ensures !LooksEscaped([s[0]] + EncodeRest(s[1..]))
  {
    var key: bytes := [s[0]] + EncodeRest(s[1..]);
    HexShowsThrough(s[1..]);
    assert At(key, 1) == At(EncodeRest(s[1..]), 0);
    if IsHex(At(s, 1)) {
      assert s[1..][1..] == s[2..];
      HexShowsThrough(s[2..]);
      assert key == [s[0], s[1]] + EncodeRest(s[2..]);
      assert At(key, 2) == At(EncodeRest(s[2..]), 0);
    }
  }

  lemma EscapeDecodes(c: byte, rest: bytes)
    requires c != NUL
    ensures DecodeRest(Escape(c) + rest) == [c] + DecodeRest(rest)
  {
    var key := Escape(c) + rest;
    assert key[1] == HexByte(c, true)[0] && key[2] == HexByte(c, true)[1];
    assert key[3..] == rest;
  }

  lemma {:induction false} RestRoundTrip(s: bytes)
    requires NoNul(s)
    ensures DecodeRest(EncodeRest(s)) == s
  {
    if s != [] {
      RestRoundTrip(s[1..]);
      if MustEscape(s) {
        EscapeDecodes(s[0], EncodeRest(s[1..]));
      } else {
        LookaheadSurvives(s);
        assert ([s[0]] + EncodeRest(s[1..]))[1..] == EncodeRest(s[1..]);
      }
    }
  }

  lemma NoZeroEscape(s: bytes)
    requires NoNul(s) && s != []
    ensures LooksEscaped(EncodeRest(s)) ==> EscapeVal(EncodeRest(s)) != 0
  {
    if MustEscape(s) {
      assert EncodeRest(s)[1] == HexByte(s[0], true)[0] && EncodeRest(s)[2] == HexByte(s[0], true)[1];
    } else {
      LookaheadSurvives(s);
    }
  }

  /** Only the empty name is encoded as the key that stands for it. */
  lemma ZeroKeyIsEmpty(name: bytes)
    requires NoNul(name) && name != []
    ensures Encode(name) != "\\00"
  {
    NoZeroEscape(name);
    if name[0] == ' ' {
      assert Encode(name)[1] == '2';
    } else {
      var z: bytes := "\\00";
      assert LooksEscaped(z) && EscapeVal(z) == 0;
    }
  }

  /** Decoding the encoded form of any NUL-free name gives the name back. */
  lemma RoundTrip(name: bytes)
    requires NoNul(name)
    ensures Decode(Encode(name)) == name
  {
    if name != [] {
      ZeroKeyIsEmpty(name);
      if name[0] == ' ' {
        RestRoundTrip(name[1..]);
        assert Escape(' ') == "\\20";
        EscapeDecodes(' ', EncodeRest(name[1..]));
      } else {
        RestRoundTrip(name);
      }
    }
  }

  /** Hence two names never share a key. */
  lemma Injective(a: bytes, b: bytes)
    requires NoNul(a) && NoNul(b) && Encode(a) == Encode(b)
    ensures a == b
  {
    RoundTrip(a);
    RoundTrip(b);
  }

  // ---------------------------------------------------------------- every encoding is a key name

  predicate KeyChar(c: char) {
    IsPrint(c) && c != '=' && c != '[' && c != ']'
  }

  /** What g_key_file_is_key_name asks for, and a little more: printable ASCII only. */
  predicate KeyName(s: bytes) {
    && s != [] && s[0] != ' ' && s[|s| - 1] != ' '
    && forall i :: 0 <= i < |s| ==> KeyChar(s[i])
  }

  lemma EscapeIsKey(c: byte)
    ensures forall i :: 0 <= i < 3 ==> KeyChar(Escape(c)[i]) && Escape(c)[i] != ' '
  {
    assert Escape(c)[1] == HexByte(c, true)[0] && Escape(c)[2] == HexByte(c, true)[1];
  }

  lemma {:induction false} RestIsKey(s: bytes)
    requires s != []
    ensures var k := EncodeRest(s);
            && k != [] && k[|k| - 1] != ' '
            && (s[0] != ' ' ==> k[0] != ' ')
            && forall i :: 0 <= i < |k| ==> KeyChar(k[i])
  {
    var head: bytes := if MustEscape(s) then Escape(s[0]) else [s[0]];
    EscapeIsKey(s[0]);
    if s[1..] != [] {
      RestIsKey(s[1..]);
    } else {
      assert EncodeRest(s) == head;
    }
  }

  lemma EncodeIsKeyName(name: bytes)
    ensures KeyName(Encode(name))
  {
    if name == [] {
    } else if name[0] == ' ' {
      if name[1..] != [] { RestIsKey(name[1..]); }
      var k := Encode(name);
      assert k[0] == '\\' && k[1] == '2' && k[2] == '0';
    } else {
      RestIsKey(name);
    }
  }

  // ---------------------------------------------------------------- what is escaped, and how

  /** Whether a name can be a key as it is: nothing in it would be taken for an escape either. */
  ghost predicate NeedsNoEscape(name: bytes) {
    KeyName(name) && forall i :: 0 <= i < |name| ==> !LooksEscaped(name[i..])
  }

  /** Only what has to be escaped is escaped. */
  lemma KeptAsIs(name: bytes)
    requires NoNul(name)
    ensures Encode(name) == name <==> NeedsNoEscape(name)
  {
    if name == [] {
    } else if name[0] == ' ' {
      assert Encode(name)[0] == '\\';
    } else {
      RestKept(name);
    }
  }

  ghost predicate PlainRest(s: bytes) {
    && (s != [] ==> s[|s| - 1] != ' ')
    && (forall i :: 0 <= i < |s| ==> KeyChar(s[i]))
    && (forall i :: 0 <= i < |s| ==> !LooksEscaped(s[i..]))
  }

  lemma {:induction false} RestKept(s: bytes)
    requires NoNul(s)
    ensures |EncodeRest(s)| >= |s|
    ensures EncodeRest(s) == s <==> PlainRest(s)
  {
    if s != [] {
      hide LooksEscaped;
      RestKept(s[1..]);
      assert s == [s[0]] + s[1..];
      assert s[0..] == s;
      assert forall i :: 0 < i < |s| ==> s[i..] == s[1..][i - 1..];
      assert PlainRest(s) <==> !MustEscape(s) && PlainRest(s[1..]) by { PlainSplit(s); }
      if MustEscape(s) {
        assert |EncodeRest(s)| == 3 + |EncodeRest(s[1..])|;
      } else {
        assert EncodeRest(s)[1..] == EncodeRest(s[1..]);
      }
    }
  }

  lemma PlainSplit(s: bytes)
    requires NoNul(s) && s != []
    ensures PlainRest(s) <==> !MustEscape(s) && PlainRest(s[1..])
  {
    hide LooksEscaped;
    assert s[0..] == s;
    assert forall i {:trigger s[i..]} :: 0 < i < |s| ==> s[i..] == s[1..][i - 1..];
    assert forall i {:trigger s[1..][i..]} :: 0 <= i < |s| - 1 ==> s[1..][i..] == s[i + 1..];
    assert forall i {:trigger s[i]} :: 0 < i < |s| ==> s[i] == s[1..][i - 1];
    assert KeyChar(s[0]) <==> 0x20 <= s[0] as int < 127 && s[0] != '=' && s[0] != '[' && s[0] != ']';
    assert At(s, 1) == NUL <==> |s| == 1;
  }

  /** An escape is a backslash and the two upper-case digits of the code. */
  lemma EscapeIs(c: byte)
    ensures var e, p, q := Escape(c), c as int / 16, c as int % 16;
            && |e| == 3 && e[0] as int == 92
            && e[1] as int == (if p < 10 then 48 + p else 55 + p)
            && e[2] as int == (if q < 10 then 48 + q else 55 + q)
  {
    HexDigitCodes(c as int / 16, true);
    HexDigitCodes(c as int % 16, true);
  }

  /** A text that does not start with a hex digit is decoded on its own. */
  lemma {:induction false} DecodeJoins(a: bytes, b: bytes)
    requires !IsHex(At(b, 0))
    ensures DecodeRest(a + b) == DecodeRest(a) + DecodeRest(b)
    decreases |a|
  {
    if a == [] {
      assert a + b == b;
    } else {
      assert LooksEscaped(a + b) == LooksEscaped(a);
      assert (a + b)[1..] == a[1..] + b;
      DecodeJoins(a[1..], b);
      if LooksEscaped(a) {
        assert (a + b)[3..] == a[3..] + b;
        DecodeJoins(a[3..], b);
      }
    }
  }

  /** Digits of either case are read, and an escaped zero is no escape. */
  lemma EscapeIsRead(p: byte, q: byte)
    requires IsHex(p) && IsHex(q)
    ensures var v := 16 * HexVal(p) + HexVal(q);
            DecodeRest(['\\', p, q]) == if v == 0 then ['\\', p, q] else [v as char]
  {
    var key: bytes := ['\\', p, q];
    assert key[1..] == [p, q] && key[3..] == [] && key[1..][1..] == [q] && key[1..][1..][1..] == [];
    assert DecodeRest(key[1..]) == [p] + DecodeRest([q]) && DecodeRest([q]) == [q];
  }

  /** A key is its own name unless an escape of something other than NUL stands in it. */
  lemma DecodedAsIs(key: bytes)
    requires NoNul(key)
    ensures Decode(key) == key <==>
            key != "\\00" && forall i :: 0 <= i < |key| && LooksEscaped(key[i..]) ==> EscapeVal(key[i..]) == 0
  {
    RestUnread(key);
  }

  ghost predicate Readable(key: bytes) {
    forall i :: 0 <= i < |key| && LooksEscaped(key[i..]) ==> EscapeVal(key[i..]) == 0
  }

  lemma {:induction false} RestUnread(key: bytes)
    ensures |DecodeRest(key)| <= |key|
    ensures DecodeRest(key) == key <==> Readable(key)
  {
    if key != [] {
      assert key[0..] == key;
      assert forall i {:trigger key[i..]} :: 0 < i < |key| ==> key[i..] == key[1..][i - 1..];
      if LooksEscaped(key) && EscapeVal(key) != 0 {
        RestUnread(key[3..]);
        assert |DecodeRest(key)| < |key|;
      } else {
        RestUnread(key[1..]);
        assert forall i {:trigger key[1..][i..]} :: 0 <= i < |key| - 1 ==> key[1..][i..] == key[i + 1..];
        assert key == [key[0]] + key[1..];
        assert DecodeRest(key)[1..] == DecodeRest(key[1..]);
      }
    }
  }

  // ---------------------------------------------------------------- the two-phase scans

  lemma EncodeStep(name: bytes, i: nat)
    requires i < |name|
    ensures EncodeRest(name[i..]) ==
            (if MustEscape(name[i..]) then Escape(name[i]) else [name[i]]) + EncodeRest(name[i + 1..])
  {
    assert name[i..][1..] == name[i + 1..];
  }

  lemma EncodeEnd(name: bytes)
    ensures EncodeRest(name[|name|..]) == []
  {
  }

  /** The part of a name that needs no escaping is copied as it is. */
  ghost predicate PlainUpTo(name: bytes, i: nat)
    requires i <= |name|
  {
    EncodeRest(name) == name[..i] + EncodeRest(name[i..])
  }

  lemma PlainStart(name: bytes)
    ensures PlainUpTo(name, 0)
  {
    assert name[0..] == name;
  }

  lemma PlainStep(name: bytes, i: nat)
    requires i < |name| && PlainUpTo(name, i) && !MustEscape(name[i..])
    ensures PlainUpTo(name, i + 1)
  {
    EncodeStep(name, i);
    assert name[..i] + [name[i]] == name[..i + 1];
  }

  lemma PlainEnd(name: bytes)
    requires PlainUpTo(name, |name|)
    ensures EncodeRest(name) == name
  {
    EncodeEnd(name);
    assert name[..|name|] == name;
  }

  /** _keyfile_key_encode: the name itself if nothing needs escaping, else a new string. */
  method KeyfileKeyEncode(name: bytes) returns (key: bytes, copied: bool)
    requires NoNul(name)
    ensures key == Encode(name)
    ensures !copied ==> key == name || name == [] || name == " "
  {
    hide EncodeRest, PlainUpTo, MustEscape, Escape;
    if At(name, 0) == NUL {
      return "\\00", false;
    }
    var i := 0;
    PlainStart(name);
    if name[0] != ' ' {
      while true
        invariant 0 <= i <= |name| && PlainUpTo(name, i)
        decreases |name| - i
      {
        if At(name, i) == NUL {
          PlainEnd(name);
          return name, false;
        }
        if MustEscape(name[i..]) {
          break;
        }
        PlainStep(name, i);
        i := i + 1;
      }
    } else if At(name, 1) == NUL {
      SpaceIsEncoded(name);
      return "\\20", false;
    }
    var str: bytes;
    if name[0] == ' ' {
      str := "\\20";
      i := 1;
    } else {
      str := name[..i];
      assert Encode(name) == str + EncodeRest(name[i..]) by { hide *; PlainMeans(name, i); }
    }
    while At(name, i) != NUL
      invariant 0 <= i <= |name|
      invariant Encode(name) == str + EncodeRest(name[i..])
      decreases |name| - i
    {
      EncodeStep(name, i);
      if MustEscape(name[i..]) {
        str := str + Escape(name[i]);
      } else {
        str := str + [name[i]];
      }
      i := i + 1;
    }
    EncodeEnd(name);
    return str, true;
  }

  lemma SpaceIsEncoded(name: bytes)
    requires NoNul(name) && name != [] && name[0] == ' ' && At(name, 1) == NUL
    ensures name == " " && Encode(name) == "\\20"
  {
    assert name == " ";
  }

  lemma PlainMeans(name: bytes, i: nat)
    requires name != [] && name[0] != ' ' && i <= |name| && PlainUpTo(name, i)
    ensures Encode(name) == name[..i] + EncodeRest(name[i..])
  {
  }

  lemma DecodeStep(key: bytes, i: nat)
    requires i < |key|
    ensures LooksEscaped(key[i..]) ==> i + 3 <= |key|
    ensures DecodeRest(key[i..]) ==
            if LooksEscaped(key[i..]) && EscapeVal(key[i..]) != 0
            then [EscapeVal(key[i..]) as char] + DecodeRest(key[i + 3..])
            else [key[i]] + DecodeRest(key[i + 1..])
  {
    assert key[i..][1..] == key[i + 1..];
    if LooksEscaped(key[i..]) {
      assert key[i..][3..] == key[i + 3..];
    }
  }

  lemma DecodeEnd(key: bytes)
    ensures DecodeRest(key[|key|..]) == []
  {
  }

  lemma ZeroKeyLooksEscaped()
    ensures LooksEscaped("\\00")
  {
  }

  /** _keyfile_key_decode: the key itself if it holds no escape, else a new string. */
  method KeyfileKeyDecode(key: bytes) returns (name: bytes, copied: bool)
    requires NoNul(key)
    ensures name == Decode(key)
    ensures !copied ==> name == key || name == []
  {
    hide DecodeRest, LooksEscaped, EscapeVal;
    if At(key, 0) == NUL {
      DecodeEnd(key);
      return [], false;
    }
    var i := 0;
    assert key[0..] == key;
    ZeroKeyLooksEscaped();
    while true
      invariant 0 <= i <= |key|
      invariant DecodeRest(key) == key[..i] + DecodeRest(key[i..])
      invariant i > 0 ==> key != "\\00"
      decreases |key| - i
    {
      if At(key, i) == NUL {
        DecodeEnd(key);
        assert key[..|key|] == key;
        return key, false;
      }
      if LooksEscaped(key[i..]) {
        break;
      }
      DecodeStep(key, i);
      assert key[..i] + [key[i]] == key[..i + 1];
      i := i + 1;
    }
    if key == "\\00" {
      return [], false;
    }
    var str: bytes := key[..i];
    while At(key, i) != NUL
      invariant 0 <= i <= |key|
      invariant DecodeRest(key) == str + DecodeRest(key[i..])
      decreases |key| - i
    {
      DecodeStep(key, i);
      if LooksEscaped(key[i..]) {
        var v := EscapeVal(key[i..]);
        if v != 0 {
          str := str + [v as char];
          i := i + 3;
          continue;
        }
      }
      str := str + [key[i]];
      i := i + 1;
    }
    DecodeEnd(key);
    return str, true;
  }
}

/** Byte strings in a keyfile: as text when printable, else as a list of integers; the reader has to
    tell the two apart. */
module ByteStrings {
  import opened Options
  import opened Text
  import StrBuf

  // ---------------------------------------------------------------- the written forms

  function IntListText(data: bytes): bytes {
    if data == [] then [] else Dec(data[0] as int) + ";" + IntListText(data[1..])
  }

  function EscapeSemicolons(s: bytes): bytes {
    if s == [] then []
    else (if s[0] == ';' then "\\;" else [s[0]]) + EscapeSemicolons(s[1..])
  }

  predicate AllPrint(s: bytes) {
    forall i :: 0 <= i < |s| ==> IsPrint(s[i])
  }

  function SsidText(ssid: bytes): bytes {
    if AllPrint(ssid) then EscapeSemicolons(ssid) else IntListText(ssid)
  }

  function PasswordRawText(data: bytes): bytes {
    IntListText(data)
  }

  // ---------------------------------------------------------------- the reader

  predicate ListChar(c: char) {
    IsSpace(c) || IsDigit(c) || c == ';'
  }

  predicate MayBeIntList(s: bytes) {
    forall i :: 0 <= i < |s| ==> ListChar(s[i])
  }

  /** One to three leading digits. */
  function NumberSpan(s: bytes): (n: nat)
    ensures n <= |s| && n <= 3 && AllDigits(s[..n])
    ensures s != [] && IsDigit(s[0]) ==> n > 0
  {
    if !IsDigit(At(s, 0)) then 0
    else if !IsDigit(At(s, 1)) then 1
    else if !IsDigit(At(s, 2)) then 2
    else 3
  }

  /** Numbers up to 255, each followed by a semicolon, with spaces between; None if anything else. */
  function IntList(s: bytes): Option<bytes>
    decreases |s|
  {
    var t := SkipSpaces(s);
    if t == [] then Some([])
    else if !IsDigit(t[0]) then None
    else
      var k := NumberSpan(t);
      var n := DecVal(t[..k]);
      var u := SkipSpaces(t[k..]);
      if n > 255 || u == [] || u[0] != ';' then None
      else
        match IntList(u[1..])
        case None => None
        case Some(l) => Some([n as char] + l)
  }

  function Unescape(s: bytes): bytes {
    if s == [] then []
    else if s[0] == '\\' && At(s, 1) == ';' then ";" + Unescape(s[2..])
    else [s[0]] + Unescape(s[1..])
  }

  function GetBytes(s: bytes, zeroTerminate: bool, unescapeSemicolon: bool): Option<bytes> {
    if s == [] then Some([])
    else if MayBeIntList(s) && IntList(s).Some? && IntList(s).value != [] then IntList(s)
    else Some((if unescapeSemicolon then Unescape(s) else s) + if zeroTerminate then [NUL] else [])
  }

  // ---------------------------------------------------------------- lists of integers

  lemma SmallDec(n: nat)
    requires n < 256
    ensures 1 <= |Dec(n)| <= 3
    ensures forall rest: bytes :: rest != [] && rest[0] == ';' ==> NumberSpan(Dec(n) + rest) == |Dec(n)|
  {
    if n >= 10 {
      assert Dec(n) == Dec(n / 10) + [Digit(n % 10)];
      if n >= 100 {
        assert Dec(n / 10) == Dec(n / 100) + [Digit(n / 10 % 10)];
      }
    }
  }

  /** The parser takes exactly one printed number and its semicolon off the front. */
  lemma IntListStep(n: nat, rest: bytes)
    requires n < 256
    ensures IntList(Dec(n) + ";" + rest) ==
            match IntList(rest) case None => None case Some(l) => Some([n as char] + l)
  {
    hide Dec, DecVal, NumberSpan;
    var d := Dec(n);
    var tail: bytes := ";" + rest;
    var s := d + tail;
    assert Dec(n) + ";" + rest == s;
    SmallDec(n);
    DecRoundTrip(n);
    assert IsDigit(s[0]) by { assert s[0] == d[0]; }
    assert s[..|d|] == d && s[|d|..] == tail && tail[1..] == rest;
  }

  lemma {:induction false} IntListRoundTrip(data: bytes)
    ensures IntList(IntListText(data)) == Some(data)
  {
    if data != [] {
      IntListRoundTrip(data[1..]);
      IntListStep(data[0] as int, IntListText(data[1..]));
      assert data == [data[0]] + data[1..];
    }
  }

  lemma {:induction false} IntListTextShape(data: bytes)
    ensures MayBeIntList(IntListText(data))
    ensures data != [] ==> IntListText(data) != []
  {
    if data != [] {
      IntListTextShape(data[1..]);
    }
  }

  // ---------------------------------------------------------------- text

  lemma {:induction false} UnescapeUndoes(s: bytes)
    ensures Unescape(EscapeSemicolons(s)) == s
  {
    if s != [] {
      UnescapeUndoes(s[1..]);
      var rest := EscapeSemicolons(s[1..]);
      assert At(rest, 0) != ';';
      if s[0] == ';' {
        var e := "\\;" + rest;
        assert e[2..] == rest;
      } else {
        var e := [s[0]] + rest;
        assert e[1..] == rest;
        assert At(e, 1) == At(rest, 0);
      }
    }
  }

  lemma {:induction false} SkipSpacesKeeps(s: bytes)
    ensures forall i :: 0 <= i < |SkipSpaces(s)| ==> SkipSpaces(s)[i] in s
  {
    if s != [] && IsSpace(s[0]) { SkipSpacesKeeps(s[1..]); }
  }

  /** Without a semicolon nothing is taken for a non-empty list of integers. */
  lemma NoSemicolonNoList(s: bytes)
    requires ';' !in s
    ensures IntList(s) == None || IntList(s) == Some([])
  {
    var t := SkipSpaces(s);
    SkipSpacesKeeps(s);
    if t != [] && IsDigit(t[0]) {
      var u := SkipSpaces(t[NumberSpan(t)..]);
      SkipSpacesKeeps(t[NumberSpan(t)..]);
      if u != [] { assert u[0] in t[NumberSpan(t)..]; }
    }
  }

  lemma {:induction false} EscapedShape(s: bytes)
    ensures s != [] ==> EscapeSemicolons(s) != []
    ensures ';' in s ==> '\\' in EscapeSemicolons(s)
    ensures ';' !in s ==> EscapeSemicolons(s) == s
  {
    if s != [] { EscapedShape(s[1..]); }
  }

  /** A printable SSID is never read as a list of integers. */
  lemma PrintableIsNoList(ssid: bytes)
    requires AllPrint(ssid)
    ensures var s := EscapeSemicolons(ssid);
            !(MayBeIntList(s) && IntList(s).Some? && IntList(s).value != [])
  {
    EscapedShape(ssid);
    var s := EscapeSemicolons(ssid);
    if ';' in ssid {
      var i :| 0 <= i < |s| && s[i] == '\\';
      assert !ListChar(s[i]);
    } else {
      NoSemicolonNoList(ssid);
    }
  }

  /** Every SSID, printable or not, empty or not, is read back as it was. */
  lemma SsidRoundTrip(ssid: bytes)
    ensures GetBytes(SsidText(ssid), false, true) == Some(ssid)
  {
    if AllPrint(ssid) {
      PrintableIsNoList(ssid);
      UnescapeUndoes(ssid);
      EscapedShape(ssid);
      assert Unescape(EscapeSemicolons(ssid)) + [] == ssid;
    } else {
      IntListRoundTrip(ssid);
      IntListTextShape(ssid);
    }
  }

  /** Every raw password is read back as it was. */
  lemma PasswordRawRoundTrip(data: bytes)
    ensures GetBytes(PasswordRawText(data), false, true) == Some(data)
  {
    IntListRoundTrip(data);
    IntListTextShape(data);
  }

  // ---------------------------------------------------------------- every list that is read

  /** A number of a list with the spaces before and behind it. */
  datatype Entry = Entry(before: bytes, digits: bytes, behind: bytes)

  ghost predicate AllSpace(s: bytes) {
    forall i :: 0 <= i < |s| ==> IsSpace(s[i])
  }

  ghost predicate GoodEntry(e: Entry) {
    AllSpace(e.before) && AllSpace(e.behind) && AllDigits(e.digits) && 1 <= |e.digits| <= 3 && DecVal(e.digits) <= 255
  }

  ghost predicate GoodEntries(entries: seq<Entry>) {
    forall i :: 0 <= i < |entries| ==> GoodEntry(entries[i])
  }

  ghost function ListLayout(entries: seq<Entry>, tail: bytes): bytes {
    if entries == [] then tail
    else entries[0].before + entries[0].digits + entries[0].behind + ";" + ListLayout(entries[1..], tail)
  }

  ghost function Numbers(entries: seq<Entry>): bytes
    requires GoodEntries(entries)
  {
    if entries == [] then [] else [DecVal(entries[0].digits) as char] + Numbers(entries[1..])
  }

  lemma {:induction false} SpacesAreSkipped(a: bytes, b: bytes)
    requires AllSpace(a) && (b == [] || !IsSpace(b[0]))
    ensures SkipSpaces(a + b) == b
  {
    if a == [] {
      assert a + b == b;
    } else {
      SpacesAreSkipped(a[1..], b);
      assert (a + b)[1..] == a[1..] + b;
    }
  }

  lemma SpanOfDigits(digits: bytes, rest: bytes)
    requires AllDigits(digits) && 1 <= |digits| <= 3 && rest != [] && !IsDigit(rest[0])
    ensures NumberSpan(digits + rest) == |digits| && IsDigit((digits + rest)[0])
  {
    var s := digits + rest;
    assert forall i :: 0 <= i < |digits| ==> s[i] == digits[i];
    assert s[|digits|] == rest[0];
  }

  lemma EntryIsRead(e: Entry, rest: bytes)
    requires GoodEntry(e)
    ensures IntList(e.before + e.digits + e.behind + ";" + rest) ==
            match IntList(rest) case None => None case Some(l) => Some([DecVal(e.digits) as char] + l)
  {
    hide DecVal, NumberSpan, SkipSpaces;
    var u: bytes := ";" + rest;
    var t := e.digits + (e.behind + u);
    assert e.before + e.digits + e.behind + ";" + rest == e.before + t;
    assert (e.behind + u)[0] == if e.behind == [] then ';' else e.behind[0];
    SpanOfDigits(e.digits, e.behind + u);
    SpacesAreSkipped(e.before, t);
    SpacesAreSkipped(e.behind, u);
    assert t[..|e.digits|] == e.digits && t[|e.digits|..] == e.behind + u && u[1..] == rest;
  }

  /** Numbers of one to three digits, spaces around them, are read. */
  lemma {:induction false} LayoutIsRead(entries: seq<Entry>, tail: bytes)
    requires GoodEntries(entries) && AllSpace(tail)
    ensures IntList(ListLayout(entries, tail)) == Some(Numbers(entries))
  {
    if entries == [] {
      SpacesAreSkipped(tail, []);
      assert tail + [] == tail;
    } else {
      LayoutIsRead(entries[1..], tail);
      EntryIsRead(entries[0], ListLayout(entries[1..], tail));
    }
  }

  lemma {:induction false} SkippedSpaces(s: bytes)
    ensures var n := |s| - |SkipSpaces(s)|; AllSpace(s[..n]) && s[n..] == SkipSpaces(s)
  {
    hide IsSpace;
    if s != [] && IsSpace(s[0]) {
      SkippedSpaces(s[1..]);
      var n := |s[1..]| - |SkipSpaces(s[1..])|;
      assert s[1..][n..] == s[n + 1..];
      assert s[..n + 1] == [s[0]] + s[1..][..n];
    }
  }

  /** Where the first number of a list that is read begins and ends, and where its semicolon stands. */
  lemma FirstNumber(s: bytes) returns (p: nat, m: nat, q: nat)
    requires IntList(s).Some? && SkipSpaces(s) != []
    ensures p < m <= q < |s| && m <= p + 3 && s[q] == ';'
    ensures AllSpace(s[..p]) && AllDigits(s[p..m]) && DecVal(s[p..m]) <= 255 && AllSpace(s[m..q])
    ensures IntList(s[q + 1..]).Some?
  {
    hide DecVal, NumberSpan, SkipSpaces, AllSpace, AllDigits, IsDigit;
    var t := SkipSpaces(s);
    SkippedSpaces(s);
    var k := NumberSpan(t);
    var v := t[k..];
    var u := SkipSpaces(v);
    SkippedSpaces(v);
    p := |s| - |t|;
    m := p + k;
    q := |s| - |u|;
    assert t[..k] == s[p..m] && v == s[m..];
    assert k > 0 && u != [] && u[0] == ';' && IntList(u[1..]).Some?;
    assert v[..|v| - |u|] == s[m..q] && u == s[q..] && u[1..] == s[q + 1..];
  }

  lemma FirstEntry(s: bytes) returns (e: Entry, rest: bytes)
    requires IntList(s).Some? && SkipSpaces(s) != []
    ensures GoodEntry(e) && |rest| < |s| && s == e.before + e.digits + e.behind + ";" + rest
    ensures IntList(rest).Some?
  {
    hide IntList, DecVal, SkipSpaces, AllSpace, AllDigits;
    var p, m, q := FirstNumber(s);
    e, rest := Entry(s[..p], s[p..m], s[m..q]), s[q + 1..];
    Cut(s, p, m, q);
  }

  lemma Cut(s: bytes, p: nat, m: nat, q: nat)
    requires p <= m <= q < |s| && s[q] == ';'
    ensures s == s[..p] + s[p..m] + s[m..q] + ";" + s[q + 1..]
  {
    assert s[..q] == s[..p] + s[p..m] + s[m..q];
    assert s == s[..q] + ";" + s[q + 1..];
  }

  /** And nothing else is read. */
  lemma {:induction false} ReadHasLayout(s: bytes) returns (entries: seq<Entry>, tail: bytes)
    requires IntList(s).Some?
    ensures GoodEntries(entries) && AllSpace(tail) && s == ListLayout(entries, tail)
    ensures IntList(s) == Some(Numbers(entries))
    decreases |s|
  {
    hide IntList, GoodEntry;
    SkippedSpaces(s);
    if SkipSpaces(s) == [] {
      entries, tail := [], s;
      assert s[..|s|] == s;
    } else {
      var e, rest := FirstEntry(s);
      var es, tl := ReadHasLayout(rest);
      entries, tail := [e] + es, tl;
      assert entries[1..] == es;
    }
    LayoutIsRead(entries, tail);
  }

  lemma {:induction false} LayoutChars(entries: seq<Entry>, tail: bytes)
    requires GoodEntries(entries) && AllSpace(tail)
    ensures MayBeIntList(ListLayout(entries, tail))
  {
    if entries != [] { LayoutChars(entries[1..], tail); }
  }

  /** A string is taken for the numbers of a list exactly when it is laid out as one and has entries;
      otherwise it is taken for text. */
  lemma GetBytesMeans(s: bytes, zeroTerminate: bool, unescapeSemicolon: bool)
    ensures var text := if unescapeSemicolon then Unescape(s) else s;
            GetBytes(s, zeroTerminate, unescapeSemicolon) ==
            if IntList(s).Some? && IntList(s).value != [] then IntList(s)
            else if s == [] then Some([])
            else Some(if zeroTerminate then text + [NUL] else text)
  {
    if IntList(s).Some? {
      var entries, tail := ReadHasLayout(s);
      LayoutChars(entries, tail);
    }
    assert Unescape(s) + [] == Unescape(s) && s + [] == s;
  }

  /** Unescaping turns each backslash and semicolon into a semicolon, wherever they stand ... */
  lemma {:induction false} UnescapeJoins(a: bytes, b: bytes)
    requires At(b, 0) == '\\' && At(b, 1) == ';'
    ensures Unescape(a + b) == Unescape(a) + ";" + Unescape(b[2..])
    decreases |a|
  {
    hide Unescape;
    var s := a + b;
    UnescapeFirst(s);
    UnescapeFirst(a);
    if a == [] {
      assert s == b;
    } else {
      assert s[1..] == a[1..] + b;
      if a[0] == '\\' && At(a, 1) == ';' {
        assert s[2..] == a[2..] + b;
        UnescapeJoins(a[2..], b);
        assert ";" + (Unescape(a[2..]) + ";" + Unescape(b[2..])) == ";" + Unescape(a[2..]) + ";" + Unescape(b[2..]);
      } else {
        assert At(s, 1) == if |a| > 1 then a[1] else '\\';
        UnescapeJoins(a[1..], b);
        assert [a[0]] + (Unescape(a[1..]) + ";" + Unescape(b[2..])) ==
               [a[0]] + Unescape(a[1..]) + ";" + Unescape(b[2..]);
      }
    }
  }

  lemma UnescapeFirst(s: bytes)
    ensures Unescape(s) ==
            if s == [] then []
            else if s[0] == '\\' && At(s, 1) == ';' then ";" + Unescape(s[2..])
            else [s[0]] + Unescape(s[1..])
  {
  }

  /** ... and leaves the rest alone. */
  lemma {:induction false} UnescapeKeeps(s: bytes)
    requires forall i :: 0 <= i < |s| - 1 ==> !(s[i] == '\\' && s[i..][1] == ';')
    ensures Unescape(s) == s
  {
    if s != [] {
      assert s[0..] == s;
      forall i | 0 <= i < |s[1..]| - 1 ensures !(s[1..][i] == '\\' && s[1..][i..][1] == ';') {
        assert s[1..][i] == s[i + 1] && s[1..][i..] == s[i + 1..];
      }
      UnescapeKeeps(s[1..]);
    }
  }

  // ---------------------------------------------------------------- the writers

  lemma {:induction false} IntListAppend(a: bytes, c: byte)
    ensures IntListText(a + [c]) == IntListText(a) + Dec(c as int) + ";"
  {
    hide Dec;
    if a == [] {
      assert a + [c] == [c] && [c][1..] == [];
    } else {
      IntListAppend(a[1..], c);
      assert (a + [c])[1..] == a[1..] + [c];
      Joined(Dec(a[0] as int) + ";", IntListText(a[1..]), Dec(c as int) + ";");
      Joined(IntListText(a[1..]), Dec(c as int), ";");
      Joined(IntListText(a), Dec(c as int), ";");
    }
  }

  lemma IntListNil(data: bytes)
    ensures IntListText(data[..0]) == []
  {
  }

  /** nm_keyfile_plugin_kf_set_integer_list_uint8: four bytes for each number are enough. */
  method SetIntegerListUint8(data: bytes) returns (value: bytes)
    ensures value == IntListText(data)
  {
    hide IntListText, Dec;
    var l := |data| * 4 + 2;
    var buf := new byte[l];
    var pos := 0;
    buf[0] := NUL;
    IntListNil(data);
    for i := 0 to |data|
      invariant pos <= 4 * i && pos + l == buf.Length == |data| * 4 + 2
      invariant buf[..pos] == IntListText(data[..i])
    {
      var text: bytes := Dec(data[i] as int) + ";";
      SmallDec(data[i] as int);
      IntListAppend(data[..i], data[i]);
      assert data[..i] + [data[i]] == data[..i + 1];
      ghost var done := buf[..pos];
      var pos', l' := StrBuf.Append(buf, pos, l, text);
      assert buf[..pos'] == done + text;
      pos, l := pos', l';
    }
    assert l > 0;
    assert data[..|data|] == data;
    value := buf[..pos];
  }

  lemma {:induction false} EscapeAppend(a: bytes, c: byte)
    ensures EscapeSemicolons(a + [c]) == EscapeSemicolons(a) + if c == ';' then "\\;" else [c]
  {
    if a == [] {
      assert a + [c] == [c] && [c][1..] == [];
    } else {
      EscapeAppend(a[1..], c);
      assert (a + [c])[1..] == a[1..] + [c];
    }
  }

  function Semicolons(s: bytes): (n: nat)
    ensures n <= |s|
  {
    if s == [] then 0 else Semicolons(s[..|s| - 1]) + if s[|s| - 1] == ';' then 1 else 0
  }

  lemma {:induction false} NoSemicolons(s: bytes)
    requires Semicolons(s) == 0
    ensures ';' !in s
  {
    if s != [] {
      NoSemicolons(s[..|s| - 1]);
      assert s == s[..|s| - 1] + [s[|s| - 1]];
    }
  }

  lemma {:induction false} EscapedLength(s: bytes)
    ensures |EscapeSemicolons(s)| == |s| + Semicolons(s)
  {
    if s != [] {
      var n := |s| - 1;
      EscapedLength(s[..n]);
      EscapeAppend(s[..n], s[n]);
      assert s == s[..n] + [s[n]];
    }
  }

  lemma {:induction false} SemicolonsMonotone(s: bytes, n: nat)
    requires n <= |s|
    ensures Semicolons(s[..n]) <= Semicolons(s)
  {
    if n < |s| {
      SemicolonsMonotone(s[..|s| - 1], n);
      assert s[..|s| - 1][..n] == s[..n];
    } else {
      assert s[..n] == s;
    }
  }

  /** ssid_writer */
  method SsidWriter(ssid: bytes) returns (text: bytes)
    ensures text == SsidText(ssid)
  {
    if |ssid| == 0 {
      return [];
    }
    var newFormat := true;
    var semicolons := 0;
    var i := 0;
    while i < |ssid| && newFormat
      invariant 0 <= i <= |ssid|
      invariant newFormat ==> AllPrint(ssid[..i]) && semicolons == Semicolons(ssid[..i])
      invariant !newFormat ==> !AllPrint(ssid)
      decreases |ssid| - i, newFormat
    {
      if !IsPrint(ssid[i]) {
        newFormat := false;
      } else {
        assert ssid[..i + 1][..i] == ssid[..i];
        if ssid[i] == ';' {
          semicolons := semicolons + 1;
        }
        i := i + 1;
      }
    }
    if !newFormat {
      text := SetIntegerListUint8(ssid);
      return;
    }
    assert ssid[..i] == ssid;
    if semicolons == 0 {
      NoSemicolons(ssid);
      EscapedShape(ssid);
      return ssid;
    }
    text := EscapeInto(ssid, semicolons);
  }

  lemma EscapedNil(s: bytes)
    ensures EscapeSemicolons(s[..0]) == [] && Semicolons(s[..0]) == 0
  {
  }

  /** One more character of the string. */
  lemma EscapedNext(s: bytes, i: nat)
    requires i < |s|
    ensures EscapeSemicolons(s[..i + 1]) == EscapeSemicolons(s[..i]) + if s[i] == ';' then "\\;" else [s[i]]
    ensures Semicolons(s[..i + 1]) == Semicolons(s[..i]) + if s[i] == ';' then 1 else 0
  {
    assert s[..i + 1][..i] == s[..i] && s[..i] + [s[i]] == s[..i + 1];
    EscapeAppend(s[..i], s[i]);
  }

  /** The copy loop of ssid_writer, into a buffer of exactly the right size. */
  method EscapeInto(ssid: bytes, semicolons: nat) returns (text: bytes)
    requires semicolons == Semicolons(ssid)
    ensures text == EscapeSemicolons(ssid)
  {
    hide EscapeSemicolons, Semicolons;
    var out := new byte[|ssid| + semicolons + 1];
    var j := 0;
    EscapedNil(ssid);
    for i := 0 to |ssid|
      invariant j == i + Semicolons(ssid[..i]) && j <= out.Length
      invariant out[..j] == EscapeSemicolons(ssid[..i])
    {
      EscapedNext(ssid, i);
      SemicolonsMonotone(ssid, i + 1);
      ghost var done := out[..j];
      if ssid[i] == ';' {
        out[j] := '\\';
        j := j + 1;
        assert out[..j] == done + "\\";
      }
      out[j] := ssid[i];
      j := j + 1;
      assert out[..j] == done + if ssid[i] == ';' then "\\;" else [ssid[i]];
    }
    EscapedLength(ssid);
    assert ssid[..|ssid|] == ssid;
    out[j] := NUL;
    text := out[..j];
  }

  // ---------------------------------------------------------------- the reader's loops

  lemma UnescapeStep(s: bytes, i: nat)
    requires i < |s|
    ensures Unescape(s[i..]) ==
            if s[i] == '\\' && At(s, i + 1) == ';' then [s[i + 1]] + Unescape(s[i + 2..])
            else [s[i]] + Unescape(s[i + 1..])
  {
    assert s[i..][1..] == s[i + 1..];
    if At(s, i + 1) == ';' {
      assert s[i..][2..] == s[i + 2..];
    }
  }

  lemma UnescapeEnd(s: bytes)
    ensures Unescape(s[|s|..]) == []
  {
  }

  lemma NulIsTheEnd(s: bytes)
    requires NoNul(s)
    ensures forall i :: 0 <= i < |s| ==> s[i] != NUL
  {
  }

  /** Where the scan goes on after the character at i. */
  function NextChar(s: bytes, i: nat): (k: nat)
    requires i < |s|
    ensures i <= k < |s|
  {
    if s[i] == '\\' && At(s, i + 1) == ';' then i + 1 else i
  }

  lemma Joined(a: bytes, b: bytes, c: bytes)
    ensures a + (b + c) == (a + b) + c
  {
  }

  lemma UnescapeNext(s: bytes, i: nat)
    requires i < |s|
    ensures Unescape(s[i..]) == [s[NextChar(s, i)]] + Unescape(s[NextChar(s, i) + 1..])
  {
    hide Unescape;
    UnescapeStep(s, i);
  }

  lemma UnescapeOn(s: bytes, i: nat, done: bytes)
    requires i < |s| && Unescape(s) == done + Unescape(s[i..])
    ensures Unescape(s) == (done + [s[NextChar(s, i)]]) + Unescape(s[NextChar(s, i) + 1..])
  {
    hide Unescape, NextChar;
    UnescapeNext(s, i);
    Joined(done, [s[NextChar(s, i)]], Unescape(s[NextChar(s, i) + 1..]));
  }

  /** unescape_semicolons: rewrites the string in place, wipes what is left over, returns the new length. */
  method UnescapeSemicolons(str: array<byte>, n: nat) returns (j: nat)
    requires n < str.Length && str[n] == NUL && NoNul(str[..n])
    modifies str
    ensures j <= n && str[..j] == Unescape(old(str[..n])) && str[j] == NUL
  {
    hide Unescape, NoNul;
    NulIsTheEnd(str[..n]);
    ghost var was := str[..n];
    var i := 0;
    j := 0;
    ghost var done: bytes := [];
    assert was[0..] == was;
    while str[i] != NUL
      invariant 0 <= j <= i <= n
      invariant forall k :: i <= k < n ==> str[k] == was[k]
      invariant str[n] == NUL
      invariant str[..j] == done && Unescape(was) == done + Unescape(was[i..])
      decreases n - i
    {
      UnescapeOn(was, i, done);
      assert str[i + 1] == At(was, i + 1);
      if str[i] == '\\' && str[i + 1] == ';' {
        i := i + 1;
      }
      done := done + [str[i]];
      str[j] := str[i];
      j := j + 1;
      i := i + 1;
    }
    UnescapeEnd(was);
    Wipe(str, j, i);
  }

  method Wipe(str: array<byte>, j: nat, i: nat)
    requires j <= i < str.Length && str[i] == NUL
    modifies str
    ensures str[..j] == old(str[..j]) && str[j] == NUL
  {
    for k := j to i
      invariant forall m :: 0 <= m < j ==> str[m] == old(str[m])
      invariant str[i] == NUL && (j < k ==> str[j] == NUL)
    {
      str[k] := NUL;
    }
  }

  lemma DecVal3(a: byte, b: byte, c: byte)
    requires IsDigit(a)
    ensures DecVal([a]) == DigitVal(a)
    ensures IsDigit(b) ==> DecVal([a, b]) == 10 * DigitVal(a) + DigitVal(b)
    ensures IsDigit(b) && IsDigit(c) ==> DecVal([a, b, c]) == 10 * (10 * DigitVal(a) + DigitVal(b)) + DigitVal(c)
  {
    assert [a][..0] == [] && [a, b][..1] == [a] && [a, b, c][..2] == [a, b];
    assert DecVal([a]) == DigitVal(a);
  }

  /** How far the digits of one list entry reach, and their value. */
  method ScanNumber(s: bytes, start: nat) returns (i: nat, n: nat)
    requires start < |s| && IsDigit(s[start])
    ensures i == start + NumberSpan(s[start..]) && i <= |s|
    ensures n == DecVal(s[start..][..i - start])
  {
    DecVal3(s[start], At(s, start + 1), At(s, start + 2));
    ghost var t := s[start..];
    n := DigitVal(s[start]);
    i := start + 1;
    if IsDigit(At(s, i)) {
      n := 10 * n + DigitVal(s[i]);
      i := i + 1;
      if IsDigit(At(s, i)) {
        n := 10 * n + DigitVal(s[i]);
        i := i + 1;
        assert t[..3] == [s[start], s[start + 1], s[start + 2]];
      } else {
        assert t[..2] == [s[start], s[start + 1]];
      }
    } else {
      assert t[..1] == [s[start]];
    }
  }

  method ScanSpaces(s: bytes, start: nat) returns (i: nat)
    requires start <= |s|
    ensures start <= i <= |s| && s[i..] == SkipSpaces(s[start..])
    ensures i < |s| ==> !IsSpace(s[i])
  {
    i := start;
    while IsSpace(At(s, i))
      invariant start <= i <= |s| && SkipSpaces(s[i..]) == SkipSpaces(s[start..])
      decreases |s| - i
    {
      assert s[i..][1..] == s[i + 1..];
      i := i + 1;
    }
    if i < |s| { assert s[i..][0] == s[i]; }
  }

  /** What the parser makes of the rest of a string, after the entries read so far. */
  ghost function Continued(read: bytes, rest: bytes): Option<bytes> {
    match IntList(rest) case None => None case Some(l) => Some(read + l)
  }

  lemma EntryRead(read: bytes, s: bytes, i: nat, j: nat, k: nat, n: nat)
    requires i <= j < |s| && s[j..] == SkipSpaces(s[i..]) && IsDigit(s[j])
    requires j + NumberSpan(s[j..]) <= k <= |s| && s[k..] == SkipSpaces(s[j + NumberSpan(s[j..])..])
    requires n == DecVal(s[j..][..NumberSpan(s[j..])]) && n <= 255
    ensures At(s, k) != ';' ==> IntList(s[i..]) == None
    ensures At(s, k) == ';' ==> Continued(read, s[i..]) == Continued(read + [n as char], s[k + 1..])
  {
    var t := s[j..];
    assert t[NumberSpan(t)..] == s[j + NumberSpan(t)..];
    if k < |s| {
      assert s[k..][1..] == s[k + 1..];
      if s[k] == ';' && IntList(s[k + 1..]).Some? {
        var l := IntList(s[k + 1..]).value;
        assert read + ([n as char] + l) == read + [n as char] + l;
      }
    }
  }

  lemma TooBigNoList(s: bytes, i: nat, j: nat, n: nat)
    requires i <= j < |s| && s[j..] == SkipSpaces(s[i..]) && IsDigit(s[j])
    requires n == DecVal(s[j..][..NumberSpan(s[j..])]) && n > 255
    ensures IntList(s[i..]) == None
  {
  }

  /** The integer-list loop of get_bytes: an empty result means that the string is no such list, or one
      without entries.  The buffer of half the length and three bytes is never overrun. */
  method ParseIntList(s: bytes) returns (list: bytes)
    requires NoNul(s)
    ensures list == if IntList(s).Some? then IntList(s).value else []
  {
    hide IntList, SkipSpaces, NumberSpan, DecVal, IsSpace, IsDigit;
    var bin := new byte[|s| / 2 + 3];
    var i, d := 0, 0;
    ContinuedStart(s);
    while true
      invariant 0 <= i <= |s| && 2 * d <= i
      invariant IntList(s) == Continued(bin[..d], s[i..])
      decreases |s| - i
    {
      var j := ScanSpaces(s, i);
      if At(s, j) == NUL {
        ContinuedEnd(bin[..d], s, i);
        break;
      }
      if !IsDigit(s[j]) {
        NoDigitNoList(s, i, j);
        d := 0;
        break;
      }
      var next, n := ScanNumber(s, j);
      if n > 255 {
        TooBigNoList(s, i, j, n);
        d := 0;
        break;
      }
      ghost var read := bin[..d];
      bin[d] := n as char;
      d := d + 1;
      assert bin[..d] == read + [n as char];
      var k := ScanSpaces(s, next);
      EntryRead(read, s, i, j, k, n);
      if At(s, k) != ';' {
        d := 0;
        break;
      }
      i := k + 1;
    }
    list := bin[..d];
  }

  lemma ContinuedStart(s: bytes)
    ensures IntList(s) == Continued([], s[0..])
  {
    assert s[0..] == s;
    if IntList(s).Some? { assert [] + IntList(s).value == IntList(s).value; }
  }

  lemma ContinuedEnd(read: bytes, s: bytes, i: nat)
    requires i <= |s| && SkipSpaces(s[i..]) == []
    ensures Continued(read, s[i..]) == Some(read)
  {
    assert read + [] == read;
  }

  lemma NoDigitNoList(s: bytes, i: nat, j: nat)
    requires i <= j < |s| && s[j..] == SkipSpaces(s[i..]) && !IsDigit(s[j])
    ensures IntList(s[i..]) == None
  {
    assert s[j..][0] == s[j];
  }

  /** get_bytes on the string that the keyfile holds for the key. */
  method GetBytesFrom(s: bytes, zeroTerminate: bool, unescapeSemicolon: bool) returns (result: Option<bytes>)
    requires NoNul(s)
    ensures result == GetBytes(s, zeroTerminate, unescapeSemicolon)
  {
    hide IntList, Unescape;
    if |s| == 0 {
      return Some([]);
    }
    var mayBeIntList := true;
    var length := 0;
    while length < |s| && mayBeIntList
      invariant 0 <= length <= |s|
      invariant mayBeIntList ==> forall i :: 0 <= i < length ==> ListChar(s[i])
      invariant !mayBeIntList ==> !MayBeIntList(s) && length == |s|
      decreases |s| - length, mayBeIntList
    {
      if !ListChar(s[length]) {
        mayBeIntList := false;
        length := |s|;
      } else {
        length := length + 1;
      }
    }
    if mayBeIntList && length > 0 {
      var list := ParseIntList(s);
      if |list| > 0 {
        return Some(list);
      }
    }
    var text := s;
    if unescapeSemicolon {
      var tmp := new byte[|s| + 1](k requires 0 <= k <= |s| => At(s, k));
      assert tmp[..|s|] == s;
      var n := UnescapeSemicolons(tmp, |s|);
      text := tmp[..n];
    }
    if zeroTerminate {
      text := text + [NUL];
    }
    if |text| == 0 {
      UnescapeNonEmpty(s);
      assert false;
    }
    assert !zeroTerminate ==> text == text + [];
    return Some(text);
  }

  lemma UnescapeNonEmpty(s: bytes)
    ensures s != [] ==> Unescape(s) != []
  {
  }
}

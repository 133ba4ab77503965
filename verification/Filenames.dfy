/** The file name of a keyfile connection, and the filter that tells which files of a directory to read. */
module Filenames {
  import opened Options
  import opened Text

  const NMCONNECTION: bytes := ".nmconnection"

  /** strrchr */
  function StrRChr(s: bytes, c: byte): (p: Option<nat>)
    ensures p.Some? ==> p.value < |s| && s[p.value] == c && forall i :: p.value < i < |s| ==> s[i] != c
    ensures p.None? ==> forall i :: 0 <= i < |s| ==> s[i] != c
  {
    if s == [] then None
    else if s[|s| - 1] == c then Some(|s| - 1)
    else StrRChr(s[..|s| - 1], c)
  }

  predicate TempLetter(c: char) {
    'a' <= c <= 'z' || 'A' <= c <= 'Z' || '0' <= c <= '9'
  }

  /** A dot and exactly six letters or digits at the end. */
  predicate CheckMkstempSuffix(path: bytes) {
    var ptr := StrRChr(path, '.');
    ptr.Some? && |path| == ptr.value + 7 && forall i :: ptr.value < i < |path| ==> TempLetter(path[i])
  }

  predicate CheckSuffix(base: bytes, tag: bytes) {
    |base| > |tag| && forall i :: 0 <= i < |tag| ==> Lower(base[|base| - |tag| + i]) == Lower(tag[i])
  }

  function Basename(filename: bytes): bytes {
    var p := StrRChr(filename, '/');
    if p.Some? then filename[p.value + 1..] else filename
  }

  /** Files that the filter takes for temporary ones, certificates or keys. */
  predicate LooksForeign(base: bytes) {
    CheckMkstempSuffix(base) || CheckSuffix(base, ".pem") || CheckSuffix(base, ".der")
  }

  /** nm_keyfile_utils_ignore_filename */
  predicate IgnoreFilename(filename: bytes, requireExtension: bool) {
    var base := Basename(filename);
    if base == [] then true
    else if base[0] == '.' then true
    else if requireExtension then |base| <= |NMCONNECTION| || !HasSuffix(base, NMCONNECTION)
    else if base[|base| - 1] == '~' then true
    else LooksForeign(base)
  }

  function WithoutSlashes(name: bytes, escape: byte): (s: bytes)
    ensures |s| == |name| && forall i :: 0 <= i < |s| ==> s[i] == if name[i] == '/' then escape else name[i]
  {
    if name == [] then []
    else WithoutSlashes(name[..|name| - 1], escape) + [if name[|name| - 1] == '/' then escape else name[|name| - 1]]
  }

  function EscapeChar(withExtension: bool): byte {
    if withExtension then '_' else '*'
  }

  /** The ends of the name made harmless. */
  function WithSafeEnds(str: bytes): (s: bytes)
    requires str != []
    ensures |s| == |str|
  {
    var a := if str[0] == '.' then str[0 := '_'] else str;
    if a[|a| - 1] == '~' then a[|a| - 1 := '_'] else a
  }

  function Created(name: bytes, withExtension: bool): bytes
    requires name != []
  {
    var str := WithSafeEnds(WithoutSlashes(name, EscapeChar(withExtension)));
    (if LooksForeign(str) then str + "_" else str) + (if withExtension then NMCONNECTION else [])
  }

  /** nm_keyfile_utils_create_filename */
  method CreateFilename(name: bytes, withExtension: bool) returns (str: bytes)
    requires name != []
    ensures str == Created(name, withExtension)
  {
    hide CheckMkstempSuffix, CheckSuffix;
    var escapeChar, escapeChar2 := EscapeChar(withExtension), '_';
    str := [];
    for f := 0 to |name|
      invariant str == WithoutSlashes(name[..f], escapeChar)
    {
      assert name[..f + 1][..f] == name[..f];
      if name[f] == '/' {
        str := str + [escapeChar];
      } else {
        str := str + [name[f]];
      }
    }
    assert name[..|name|] == name;
    if str[0] == '.' {
      str := str[0 := escapeChar2];
    }
    if str[|str| - 1] == '~' {
      str := str[|str| - 1 := escapeChar2];
    }
    if CheckMkstempSuffix(str) || CheckSuffix(str, ".pem") || CheckSuffix(str, ".der") {
      str := str + [escapeChar2];
    }
    if withExtension {
      str := str + NMCONNECTION;
    }
  }

  // ---------------------------------------------------------------- the two mirror each other

  lemma NoSlash(name: bytes, withExtension: bool)
    requires name != []
    ensures '/' !in Created(name, withExtension)
  {
    var str := WithSafeEnds(WithoutSlashes(name, EscapeChar(withExtension)));
    assert '/' !in str;
    assert '/' !in NMCONNECTION && '/' !in "_";
  }

  /** An underscore at the end is enough to look harmless. */
  lemma UnderscoreIsHarmless(s: bytes)
    requires s != [] && s[|s| - 1] == '_'
    ensures !LooksForeign(s)
  {
    assert !TempLetter(s[|s| - 1]);
    assert Lower(s[|s| - 1]) == '_';
    assert Lower(".pem"[3]) == 'm' && Lower(".der"[3]) == 'r';
    assert s[|s| - 1] == s[|s| - 4 + 3];
  }

  lemma BasenameOf(dir: bytes, base: bytes)
    requires '/' !in base
    ensures Basename(base) == base && Basename(dir + "/" + base) == base
  {
    var path := dir + "/" + base;
    assert path[|dir|] == '/';
    forall i | |dir| < i < |path| ensures path[i] != '/' {
      assert path[i] == base[i - |dir| - 1];
    }
    assert path[|dir| + 1..] == base;
  }

  lemma CreatedShape(name: bytes, withExtension: bool)
    requires name != []
    ensures var s := Created(name, withExtension);
            && s != [] && s[0] != '.'
            && (withExtension ==> |s| > |NMCONNECTION| && HasSuffix(s, NMCONNECTION))
            && (!withExtension ==> s[|s| - 1] != '~' && !LooksForeign(s))
  {
    hide LooksForeign;
    var str := WithSafeEnds(WithoutSlashes(name, EscapeChar(withExtension)));
    assert str[0] != '.' && str[|str| - 1] != '~';
    UnderscoreIsHarmless(str + "_");
    var full := if LooksForeign(str) then str + "_" else str;
    assert full + [] == full;
    assert (full + NMCONNECTION)[|full|..] == NMCONNECTION;
  }

  /** What the filter lets pass: with the extension asked for, any visible name that has it. */
  lemma FilterMeans(dir: bytes, base: bytes)
    requires '/' !in base
    ensures !IgnoreFilename(dir + "/" + base, true) <==>
            |base| > 13 && base[0] != '.' && base[|base| - 13..] == ".nmconnection"
    ensures !IgnoreFilename(dir + "/" + base, false) <==>
            && base != [] && base[0] != '.' && base[|base| - 1] != '~'
            && !IsTemporary(base) && !IsCertificate(base)
  {
    hide CheckMkstempSuffix, CheckSuffix, IsTemporary, IsCertificate, Basename;
    BasenameOf(dir, base);
    TemporaryMeans(base);
    CertificateMeans(base);
    assert |".nmconnection"| == 13;
  }

  /** Like the names that mkstemp makes of a template. */
  predicate IsTemporary(base: bytes) {
    |base| >= 7 && base[|base| - 7] == '.' && forall i :: |base| - 6 <= i < |base| ==> LetterOrDigit(base[i])
  }

  predicate LetterOrDigit(c: char) {
    48 <= c as int < 58 || 65 <= c as int < 91 || 97 <= c as int < 123
  }

  lemma TemporaryMeans(base: bytes)
    ensures CheckMkstempSuffix(base) <==> IsTemporary(base)
  {
    if IsTemporary(base) {
      var p := StrRChr(base, '.');
      assert p.Some? && p.value >= |base| - 7;
      assert p.value > |base| - 7 ==> LetterOrDigit(base[p.value]);
    }
  }

  predicate IsCertificate(base: bytes) {
    && |base| > 4 && base[|base| - 4] == '.'
    && (|| (base[|base| - 3] in "pP" && base[|base| - 2] in "eE" && base[|base| - 1] in "mM")
        || (base[|base| - 3] in "dD" && base[|base| - 2] in "eE" && base[|base| - 1] in "rR"))
  }

  lemma CertificateMeans(base: bytes)
    ensures CheckSuffix(base, ".pem") || CheckSuffix(base, ".der") <==> IsCertificate(base)
  {
    if |base| > 4 {
      var n := |base| - 4;
      SuffixLetters(base, ".pem");
      SuffixLetters(base, ".der");
      LowerMeans(base[n], '.');
      LowerMeans(base[n + 1], 'p');
      LowerMeans(base[n + 1], 'd');
      LowerMeans(base[n + 2], 'e');
      LowerMeans(base[n + 3], 'm');
      LowerMeans(base[n + 3], 'r');
    }
  }

  lemma SuffixLetters(base: bytes, tag: bytes)
    requires |tag| == 4 < |base|
    ensures var n := |base| - 4;
            CheckSuffix(base, tag) <==>
            && Lower(base[n]) == Lower(tag[0]) && Lower(base[n + 1]) == Lower(tag[1])
            && Lower(base[n + 2]) == Lower(tag[2]) && Lower(base[n + 3]) == Lower(tag[3])
  {
    assert base[|base| - 4 + 0] == base[|base| - 4];
  }

  lemma LowerMeans(c: byte, l: byte)
    requires 'a' <= l <= 'z' || l == '.'
    ensures Lower(c) == Lower(l) <==> c == l || (l != '.' && c as int + 32 == l as int)
  {
  }

  /** The name with its slashes and its ends replaced, character by character. */
  lemma SafeMeans(name: bytes, withExtension: bool)
    requires name != []
    ensures var s, n := WithSafeEnds(WithoutSlashes(name, EscapeChar(withExtension))), |name|;
            && (forall i :: 0 < i < n - 1 && name[i] != '/' ==> s[i] == name[i])
            && (forall i :: 0 <= i < n && name[i] == '/' ==> s[i] == if withExtension then '_' else '*')
            && (name[0] == '.' ==> s[0] == '_') && (name[n - 1] == '~' ==> s[n - 1] == '_')
            && (name[0] != '.' && name[0] != '/' && n > 1 ==> s[0] == name[0])
            && (name[n - 1] != '~' && name[n - 1] != '/' && n > 1 ==> s[n - 1] == name[n - 1])
  {
    hide WithSafeEnds, WithoutSlashes;
    SafeEnds(WithoutSlashes(name, EscapeChar(withExtension)));
  }

  lemma SafeEnds(str: bytes)
    requires str != []
    ensures var s, n := WithSafeEnds(str), |str|;
            && (forall i :: 0 < i < n - 1 ==> s[i] == str[i])
            && s[0] == (if str[0] == '.' || (n == 1 && str[0] == '~') then '_' else str[0])
            && (n > 1 ==> s[n - 1] == if str[n - 1] == '~' then '_' else str[n - 1])
  {
  }

  /** A created name: the characters of the name except slashes, a dot in front and a tilde at the end, then an
      underscore if that looks like a temporary file or a certificate, then the extension. */
  lemma CreatedMeans(name: bytes, withExtension: bool)
    requires name != []
    ensures var s, n := Created(name, withExtension), |name|;
            && n <= |s|
            && s[n..] == (if IsTemporary(s[..n]) || IsCertificate(s[..n]) then "_" else [])
                         + (if withExtension then ".nmconnection" else [])
            && (forall i :: 0 < i < n - 1 && name[i] != '/' ==> s[i] == name[i])
            && (forall i :: 0 <= i < n && name[i] == '/' ==> s[i] == if withExtension then '_' else '*')
            && (name[0] == '.' ==> s[0] == '_') && (name[n - 1] == '~' ==> s[n - 1] == '_')
            && (name[0] != '.' && name[0] != '/' && n > 1 ==> s[0] == name[0])
            && (name[n - 1] != '~' && name[n - 1] != '/' && n > 1 ==> s[n - 1] == name[n - 1])
  {
    hide WithSafeEnds, IsTemporary, IsCertificate, CheckMkstempSuffix, CheckSuffix;
    var str := WithSafeEnds(WithoutSlashes(name, EscapeChar(withExtension)));
    var s := Created(name, withExtension);
    SafeMeans(name, withExtension);
    TemporaryMeans(str);
    CertificateMeans(str);
    var tail := (if LooksForeign(str) then "_" else []) + (if withExtension then NMCONNECTION else []);
    assert s == str + tail;
    assert s[..|name|] == str && s[|name|..] == tail;
    assert forall i :: 0 <= i < |name| ==> s[i] == str[i];
  }

  /** Every created name is free of slashes and accepted by the filter in the same mode, in whichever
      directory the file lies. */
  lemma CreatedIsAccepted(name: bytes, withExtension: bool, dir: bytes)
    requires name != []
    ensures '/' !in Created(name, withExtension)
    ensures !IgnoreFilename(Created(name, withExtension), withExtension)
    ensures !IgnoreFilename(dir + "/" + Created(name, withExtension), withExtension)
  {
    hide LooksForeign, Basename, Created;
    var s := Created(name, withExtension);
    NoSlash(name, withExtension);
    BasenameOf(dir, s);
    CreatedShape(name, withExtension);
  }

  /** In turn, a name is escaped only if the filter, or the file system, would not take it as it is. */
  lemma AcceptedIsKept(name: bytes)
    requires name != []
    ensures Created(name, false) == name <==> '/' !in name && !IgnoreFilename(name, false)
  {
    hide LooksForeign;
    var str := WithoutSlashes(name, '*');
    if '/' !in name {
      assert str == name;
      BasenameOf([], name);
      var safe := WithSafeEnds(name);
      assert safe == name <==> name[0] != '.' && name[|name| - 1] != '~';
      assert (if LooksForeign(safe) then safe + "_" else safe) + [] == if LooksForeign(safe) then safe + "_" else safe;
    } else {
      NoSlash(name, false);
    }
  }
}

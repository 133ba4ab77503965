/** Certificate and key properties of NMSetting8021x: what a value is, and how the keyfile writes and
    reads it. */
module Certs {
  import opened Options
  import opened Text
  import opened ByteStrings
  import opened KeyFile
  import Base64
  import Filenames
  import Utf8

  const PREFIX_PATH: bytes := "file://"
  const PREFIX_PKCS11: bytes := "pkcs11:"
  const PREFIX_BLOB: bytes := "data:;base64,"

  datatype Scheme = Unknown | Blob | Path | Pkcs11

  /** nm_setting_802_1x_check_cert_scheme */
  function CheckCertScheme(data: bytes): Scheme {
    if data == [] then Unknown
    else
      var scheme := if HasPrefix(data, PREFIX_PATH) then Path
                    else if HasPrefix(data, PREFIX_PKCS11) then Pkcs11 else Blob;
      if scheme == Blob then Blob
      else
        var prefixLength := 7;
        var n := |data| - 1;
        if data[n] != NUL || n <= prefixLength || !Utf8.Valid(data[prefixLength..n]) then Unknown else scheme
  }

  /** _cert_get_path and the URI getter: a value without its terminating NUL. */
  function CertGetPath(value: bytes): bytes
    requires |value| > 7
  {
    value[7..|value| - 1]
  }

  // ---------------------------------------------------------------- surroundings

  /** The directory of the process, and which files exist. */
  datatype Env = Env(cwd: bytes, fileExists: bytes -> bool)

  predicate EnvOk(env: Env) {
    env.cwd != [] && env.cwd[0] == '/' && NoNul(env.cwd)
  }

  function WithoutTrailingSlashes(s: bytes): bytes {
    if s != [] && s[|s| - 1] == '/' then WithoutTrailingSlashes(s[..|s| - 1]) else s
  }

  /** g_build_path on a directory and a name without slashes: one slash between them. */
  function BuildPath(dir: bytes, base: bytes): bytes {
    if base == [] then dir
    else if WithoutTrailingSlashes(dir) == [] then dir + base
    else WithoutTrailingSlashes(dir) + "/" + base
  }

  /** get_cert_path: of a relative path only the last component counts. */
  function GetCertPath(baseDir: bytes, certPath: bytes): bytes {
    var path := StrNDup(certPath);
    if At(path, 0) == '/' then path else BuildPath(baseDir, Filenames.Basename(path))
  }

  predicate HasCertExt(path: bytes) {
    || HasSuffix(path, ".pem") || HasSuffix(path, ".cert") || HasSuffix(path, ".crt") || HasSuffix(path, ".cer")
    || HasSuffix(path, ".p12") || HasSuffix(path, ".der") || HasSuffix(path, ".key")
  }

  /** nm_keyfile_detect_unqualified_path_scheme: the value with its file:// prefix, without the NUL. */
  function DetectUnqualifiedPath(env: Env, baseDir: bytes, data: bytes, considerExists: bool): Option<bytes> {
    if |data| > 500 || |data| < 1 then None
    else
      var validateLen := if data[|data| - 1] == NUL then |data| - 1 else |data|;
      if validateLen == 0 || !Utf8.Valid(data[..validateLen]) then None
      else
        var path := GetCertPath(baseDir, data);
        if '/' !in data && !HasCertExt(path) && (!considerExists || !env.fileExists(path)) then None
        else
          var pathUri := PREFIX_PATH + path;
          if CheckCertScheme(pathUri + [NUL]) != Path then None else Some(pathUri)
  }

  // ---------------------------------------------------------------- writer and reader

  function Absolute(env: Env, path: bytes): bytes {
    if path != [] && path[0] != '/' then env.cwd + "/" + path else path
  }

  /** cert_writer_default: the string put into the keyfile; dirname is that of an absolute path. */
  function CertText(env: Env, dirname: bytes, value: bytes): Option<bytes> {
    match CheckCertScheme(value)
    case Path =>
      var given := CertGetPath(value);
      var path := Absolute(env, given);
      var baseDir := if given != path then env.cwd else dirname;
      if DetectUnqualifiedPath(env, baseDir, path, false).Some? then Some(path) else Some(PREFIX_PATH + path)
    case Blob => Some(PREFIX_BLOB + Base64.Encode(value))
    case Pkcs11 => Some(value[..|value| - 1])
    case Unknown => None
  }

  predicate HasSchemePrefix(bin: bytes, scheme: bytes) {
    |bin| > |scheme| + 1 && bin[|bin| - 1] == NUL && HasPrefix(bin, scheme)
  }

  /** cert_parser: the value that the setting gets, if it gets one. */
  function CertValue(env: Env, baseDir: bytes, text: bytes): Option<bytes> {
    match GetBytes(text, true, false)
    case None => None
    case Some(bin) =>
      if bin == [] then None
      else if HasSchemePrefix(bin, PREFIX_PATH) then
        if CheckCertScheme(bin) != Path then None else Some(bin)
      else if HasSchemePrefix(bin, PREFIX_PKCS11) then
        if CheckCertScheme(bin) != Pkcs11 then None else Some(bin)
      else if HasSchemePrefix(bin, PREFIX_BLOB) then
        var cdata := bin[|PREFIX_BLOB|..|bin| - 1];
        if !Base64.Strict(cdata) then None
        else
          var decoded := Base64.Decode(cdata);
          if decoded == [] || CheckCertScheme(decoded) != Blob then None else Some(decoded)
      else
        match DetectUnqualifiedPath(env, baseDir, bin, true)
        case Some(path) => Some(path + [NUL])
        case None => if CheckCertScheme(bin) != Blob then None else Some(bin)
  }

  // ---------------------------------------------------------------- round trip

  /** Text with a character that no list of integers has is read as it stands, with a NUL. */
  lemma TextIsRead(text: bytes, i: nat)
    requires i < |text| && !ListChar(text[i])
    ensures GetBytes(text, true, false) == Some(text + [NUL])
  {
  }

  lemma PrefixOf(prefix: bytes, rest: bytes)
    ensures HasPrefix(prefix + rest, prefix) && (prefix + rest)[|prefix|..] == rest
  {
  }

  lemma DifferentHead(s: bytes, prefix: bytes)
    requires s != [] && prefix != [] && s[0] != prefix[0]
    ensures !HasPrefix(s, prefix)
  {
    if |s| >= |prefix| { assert s[..|prefix|][0] == s[0]; }
  }

  /** A PKCS#11 URI is read back as it was. */
  lemma Pkcs11RoundTrip(env: Env, dirname: bytes, baseDir: bytes, value: bytes)
    requires CheckCertScheme(value) == Pkcs11
    ensures CertText(env, dirname, value).Some?
    ensures CertValue(env, baseDir, CertText(env, dirname, value).value) == Some(value)
  {
    var text := value[..|value| - 1];
    assert value[..7][0] == 'p';
    assert !ListChar(text[0]);
    TextIsRead(text, 0);
    assert text + [NUL] == value;
  }

  /** A blob is read back as it was. */
  lemma BlobRoundTrip(env: Env, dirname: bytes, baseDir: bytes, value: bytes)
    requires CheckCertScheme(value) == Blob
    ensures CertText(env, dirname, value).Some?
    ensures CertValue(env, baseDir, CertText(env, dirname, value).value) == Some(value)
  {
    var code := Base64.Encode(value);
    var text := PREFIX_BLOB + code;
    var bin := text + [NUL];
    Base64.EncodeIsStrict(value);
    Base64.RoundTrip(value);
    assert text[0] == 'd' && bin[0] == 'd';
    TextIsRead(text, 0);
    DifferentHead(bin, PREFIX_PATH);
    DifferentHead(bin, PREFIX_PKCS11);
    PrefixOf(PREFIX_BLOB, code + [NUL]);
    assert bin == PREFIX_BLOB + (code + [NUL]);
    assert bin[|PREFIX_BLOB|..|bin| - 1] == code;
  }

  /** What is known of a valid path value. */
  lemma PathValue(value: bytes)
    requires CheckCertScheme(value) == Path
    ensures var path := CertGetPath(value);
            && path != [] && Utf8.Valid(path) && NoNul(path)
            && value == PREFIX_PATH + path + [NUL]
  {
    Utf8.ValidNoNul(CertGetPath(value));
  }

  lemma PathIsValid(path: bytes)
    requires path != [] && Utf8.Valid(path)
    ensures CheckCertScheme(PREFIX_PATH + path + [NUL]) == Path
  {
    var v := PREFIX_PATH + path + [NUL];
    assert v[..7] == PREFIX_PATH && v[7..|v| - 1] == path;
  }

  /** When a bare absolute path, with or without a NUL behind it, is recognised. */
  lemma BarePathDetected(env: Env, baseDir: bytes, path: bytes, tail: bytes, considerExists: bool)
    requires path != [] && path[0] == '/' && Utf8.Valid(path) && NoNul(path) && (tail == [] || tail == [NUL])
    ensures DetectUnqualifiedPath(env, baseDir, path + tail, considerExists) ==
            if |path| + |tail| > 500 then None else Some(PREFIX_PATH + path)
  {
    var data := path + tail;
    StrNDupIs(path, tail);
    PathIsValid(path);
    assert data[0] == '/' && '/' in data;
    if |data| <= 500 {
      var n := if data[|data| - 1] == NUL then |data| - 1 else |data|;
      assert tail == [NUL] ==> data[|data| - 1] == NUL;
      assert data[..n] == path;
    }
  }

  /** What the reader makes of a bare absolute path. */
  lemma BarePathRead(env: Env, baseDir: bytes, path: bytes)
    requires path != [] && path[0] == '/' && Utf8.Valid(path) && NoNul(path)
    ensures CertValue(env, baseDir, path) ==
            Some((if |path| >= 500 then [] else PREFIX_PATH) + path + [NUL])
  {
    hide GetBytes, Utf8.Valid, DetectUnqualifiedPath, NoNul;
    var bin := path + [NUL];
    TextIsRead(path, 0);
    assert bin[0] == '/';
    DifferentHead(bin, PREFIX_PATH);
    DifferentHead(bin, PREFIX_PKCS11);
    DifferentHead(bin, PREFIX_BLOB);
    BarePathDetected(env, baseDir, path, [NUL], true);
    assert [] + path + [NUL] == bin;
  }

  /** What the reader makes of a path behind file://. */
  lemma PrefixedPathRead(env: Env, baseDir: bytes, path: bytes)
    requires path != []
    ensures var v := CertValue(env, baseDir, PREFIX_PATH + path);
            && (v == None || v == Some(PREFIX_PATH + path + [NUL]))
            && (Utf8.Valid(path) ==> v.Some?)
  {
    var text := PREFIX_PATH + path;
    var bin := text + [NUL];
    assert text[0] == 'f';
    TextIsRead(text, 0);
    assert bin[..7] == PREFIX_PATH;
    if Utf8.Valid(path) { PathIsValid(path); }
  }

  /** An absolute path is read back as it was, unless it is exactly 500 bytes long: the writer measures it
      without its NUL, the reader with it. */
  lemma AbsolutePathRoundTrip(env: Env, dirname: bytes, baseDir: bytes, value: bytes)
    requires CheckCertScheme(value) == Path && CertGetPath(value)[0] == '/'
    ensures CertText(env, dirname, value).Some?
    ensures CertValue(env, baseDir, CertText(env, dirname, value).value) == Some(value)
            <==> |CertGetPath(value)| != 500
  {
    PathValue(value);
    var path := CertGetPath(value);
    BarePathDetected(env, dirname, path, [], false);
    assert path + [] == path;
    if |path| <= 500 {
      BarePathRead(env, baseDir, path);
      if |path| == 500 { assert value[0] == 'f' && (path + [NUL])[0] == '/'; }
    } else {
      PrefixedPathRead(env, baseDir, path);
    }
  }

  /** A relative path never comes back as it was: the writer makes it absolute. */
  lemma RelativePathIsMadeAbsolute(env: Env, dirname: bytes, baseDir: bytes, value: bytes)
    requires EnvOk(env) && CheckCertScheme(value) == Path && CertGetPath(value)[0] != '/'
    ensures CertText(env, dirname, value).Some?
    ensures CertValue(env, baseDir, CertText(env, dirname, value).value) != Some(value)
  {
    PathValue(value);
    var given := CertGetPath(value);
    var path := Absolute(env, given);
    assert path == env.cwd + "/" + given && path[0] == '/';
    assert value[7] == given[0];
    var text := CertText(env, dirname, value).value;
    if text == path {
      DetectedIsUtf8(env, env.cwd, path);
      BarePathRead(env, baseDir, path);
      var bare := path + [NUL];
      var full := PREFIX_PATH + path + [NUL];
      assert bare[0] == '/' && full[7] == '/' && value[0] == 'f';
    } else {
      PrefixedPathRead(env, baseDir, path);
      var full := PREFIX_PATH + path + [NUL];
      assert full[7] == '/';
    }
  }

  lemma DetectedIsUtf8(env: Env, baseDir: bytes, path: bytes)
    requires NoNul(path) && DetectUnqualifiedPath(env, baseDir, path, false).Some?
    ensures Utf8.Valid(path)
  {
    assert path[..|path|] == path;
  }

  /** A valid value written by cert_writer_default is read by cert_parser as the same bytes exactly when it
      is not a path, or is an absolute path whose length is not 500. */
  lemma CertRoundTrip(env: Env, dirname: bytes, baseDir: bytes, value: bytes)
    requires EnvOk(env) && CheckCertScheme(value) != Unknown
    ensures CertText(env, dirname, value).Some?
    ensures CertValue(env, baseDir, CertText(env, dirname, value).value) == Some(value) <==>
            (CheckCertScheme(value) == Path ==> CertGetPath(value)[0] == '/' && |CertGetPath(value)| != 500)
  {
    match CheckCertScheme(value)
    case Blob => BlobRoundTrip(env, dirname, baseDir, value);
    case Pkcs11 => Pkcs11RoundTrip(env, dirname, baseDir, value);
    case Path =>
      if CertGetPath(value)[0] == '/' {
        AbsolutePathRoundTrip(env, dirname, baseDir, value);
      } else {
        RelativePathIsMadeAbsolute(env, dirname, baseDir, value);
      }
  }

  // ---------------------------------------------------------------- the texts written out

  /** What each kind of value looks like in the keyfile: a blob in base64, a URI as it is, a path bare if it is
      recognised as one, and with its prefix otherwise. */
  lemma WrittenTexts(env: Env, dirname: bytes, value: bytes)
    requires CheckCertScheme(value) != Unknown
    ensures var text := CertText(env, dirname, value);
            match CheckCertScheme(value)
            case Blob => text == Some("data:;base64," + Base64.Encode(value))
            case Pkcs11 => text == Some(value[..|value| - 1]) && HasPrefix(value, "pkcs11:")
            case Path =>
              && HasPrefix(value, "file://")
              && (value[7] == '/' ==>
                    text == Some(if |value| <= 508 then value[7..|value| - 1] else value[..|value| - 1]))
              && (value[7] != '/' && EnvOk(env) ==>
                    var path := env.cwd + "/" + value[7..|value| - 1];
                    text == Some(path) || text == Some("file://" + path))
            case Unknown => true
  {
    if CheckCertScheme(value) == Path {
      PathValue(value);
      var path := CertGetPath(value);
      if value[7] == '/' {
        BarePathDetected(env, dirname, path, [], false);
        assert path + [] == path;
        assert value[..|value| - 1] == PREFIX_PATH + path;
      }
    }
  }

  /** The names of files that count as certificates and keys. */
  const CERT_EXTENSIONS: set<bytes> := {".pem", ".cert", ".crt", ".cer", ".p12", ".der", ".key"}

  /** A bare relative name is taken for a file of the base directory, whatever directory it names itself, if it
      has a slash or the extension of a certificate, or if there is such a file; otherwise it is a blob. */
  lemma RelativeNameRead(env: Env, dir: bytes, slashes: bytes, sub: bytes, base: bytes, i: nat)
    requires dir != [] && dir[|dir| - 1] != '/' && forall j :: 0 <= j < |slashes| ==> slashes[j] == '/'
    requires '/' !in base && base != [] && (sub != [] ==> sub[0] != '/' && sub[|sub| - 1] == '/')
    requires IsText(sub + base, i)
    ensures var name, path := sub + base, dir + "/" + base;
            var named := sub != [] || exists x :: x in CERT_EXTENSIONS && HasSuffix(path, x);
            var isFile := named || env.fileExists(path);
            CertValue(env, dir + slashes, name) ==
            if isFile && Utf8.Valid(path) then Some("file://" + path + [NUL]) else Some(name + [NUL])
  {
    hide IsText, HasSuffix, Filenames.Basename, BuildPath, StrNDup, CertValue;
    SlashInName(sub, base);
    LastComponent(sub, base);
    OneSlash(dir, slashes, base);
    FileNameRead(env, dir + slashes, sub + base, i);
  }

  /** No list of integers, and none of the prefixes. */
  predicate IsText(name: bytes, i: nat) {
    && |name| < 500 && Utf8.Valid(name) && i < |name| && !ListChar(name[i])
    && !HasPrefix(name, "file://") && !HasPrefix(name, "pkcs11:") && !HasPrefix(name, "data:;base64,")
  }

  lemma FileNameRead(env: Env, baseDir: bytes, name: bytes, i: nat)
    requires IsText(name, i) && name[0] != '/'
    ensures var path := BuildPath(baseDir, Filenames.Basename(name));
            var named := '/' in name || exists x :: x in CERT_EXTENSIONS && HasSuffix(path, x);
            var isFile := named || env.fileExists(path);
            CertValue(env, baseDir, name) ==
            if isFile && path != [] && Utf8.Valid(path) then Some("file://" + path + [NUL]) else Some(name + [NUL])
  {
    hide GetBytes, Utf8.Valid, HasPrefix, BuildPath, Filenames.Basename;
    var bin := name + [NUL];
    Utf8.ValidNoNul(name);
    TextIsRead(name, i);
    PrefixBeforeNul(name, PREFIX_PATH);
    PrefixBeforeNul(name, PREFIX_PKCS11);
    PrefixBeforeNul(name, PREFIX_BLOB);
    StrNDupIs(name, [NUL]);
    assert bin[..|bin| - 1] == name;
    assert '/' in bin <==> '/' in name;
    var path := BuildPath(baseDir, Filenames.Basename(name));
    CertExtensionsAre(path);
    SchemeOfPath(path);
  }

  lemma SlashInName(sub: bytes, base: bytes)
    requires '/' !in base && base != [] && (sub != [] ==> sub[0] != '/' && sub[|sub| - 1] == '/')
    ensures '/' in sub + base <==> sub != []
    ensures (sub + base)[0] != '/'
  {
    if sub != [] { assert (sub + base)[|sub| - 1] == sub[|sub| - 1]; }
  }

  lemma LastComponent(sub: bytes, base: bytes)
    requires '/' !in base && (sub != [] ==> sub[|sub| - 1] == '/')
    ensures Filenames.Basename(sub + base) == base
  {
    if sub == [] {
      assert sub + base == base;
      Filenames.BasenameOf([], base);
    } else {
      var dir := sub[..|sub| - 1];
      assert sub == dir + "/";
      Filenames.BasenameOf(dir, base);
    }
  }

  lemma OneSlash(dir: bytes, slashes: bytes, base: bytes)
    requires dir != [] && dir[|dir| - 1] != '/' && base != []
    requires forall j :: 0 <= j < |slashes| ==> slashes[j] == '/'
    ensures BuildPath(dir + slashes, base) == dir + "/" + base
  {
    TrailingSlashesGo(dir, slashes);
  }

  lemma {:induction false} TrailingSlashesGo(dir: bytes, slashes: bytes)
    requires dir != [] && dir[|dir| - 1] != '/' && forall j :: 0 <= j < |slashes| ==> slashes[j] == '/'
    ensures WithoutTrailingSlashes(dir + slashes) == dir
  {
    var s, n := dir + slashes, |slashes| - 1;
    if slashes == [] {
      assert s == dir;
    } else {
      assert s[|s| - 1] == '/' && s[..|s| - 1] == dir + slashes[..n];
      TrailingSlashesGo(dir, slashes[..n]);
    }
  }

  lemma PrefixBeforeNul(name: bytes, prefix: bytes)
    requires NUL !in prefix
    ensures HasPrefix(name + [NUL], prefix) <==> HasPrefix(name, prefix)
  {
    var bin := name + [NUL];
    if |name| >= |prefix| {
      assert bin[..|prefix|] == name[..|prefix|];
    } else if |bin| >= |prefix| {
      assert |bin| == |prefix| && bin[..|prefix|] == bin && NUL in bin;
    }
  }

  lemma CertExtensionsAre(path: bytes)
    ensures HasCertExt(path) <==> exists x :: x in CERT_EXTENSIONS && HasSuffix(path, x)
  {
    hide HasSuffix;
  }

  lemma SchemeOfPath(path: bytes)
    ensures CheckCertScheme(PREFIX_PATH + path + [NUL]) == Path <==> path != [] && Utf8.Valid(path)
  {
    var v := PREFIX_PATH + path + [NUL];
    assert v[..7] == PREFIX_PATH && v[7..|v| - 1] == path;
  }

  // ---------------------------------------------------------------- values that do not come back

  lemma AsciiPath(path: bytes)
    requires path != [] && forall i :: 0 <= i < |path| ==> 0 < path[i] as int < 0x80
    ensures var value := PREFIX_PATH + path + [NUL];
            CheckCertScheme(value) == Path && CertGetPath(value) == path
  {
    Utf8.AsciiIsValid(path);
    PathIsValid(path);
  }

  /** A slash and 499 letters */
  const LONG_PATH: bytes := "/" + seq(499, _ => 'a')

  /** A valid path of 500 bytes comes back as a blob that holds the text of the path. */
  lemma FiveHundredBytesAreLost(env: Env, dirname: bytes, baseDir: bytes)
    ensures var value := PREFIX_PATH + LONG_PATH + [NUL];
            && CheckCertScheme(value) == Path
            && CertText(env, dirname, value) == Some(LONG_PATH)
            && CertValue(env, baseDir, LONG_PATH) == Some(LONG_PATH + [NUL]) != Some(value)
            && CheckCertScheme(LONG_PATH + [NUL]) == Blob
  {
    hide CertValue, DetectUnqualifiedPath;
    var value := PREFIX_PATH + LONG_PATH + [NUL];
    AsciiPath(LONG_PATH);
    PathValue(value);
    BarePathDetected(env, dirname, LONG_PATH, [], false);
    assert LONG_PATH + [] == LONG_PATH;
    BarePathRead(env, baseDir, LONG_PATH);
    assert [] + LONG_PATH + [NUL] == LONG_PATH + [NUL];
    DifferentHead(LONG_PATH + [NUL], PREFIX_PATH);
    DifferentHead(LONG_PATH + [NUL], PREFIX_PKCS11);
    assert value[0] == 'f' && (LONG_PATH + [NUL])[0] == '/';
  }

  /** The relative path ca.pem does not come back. */
  lemma RelativeFileIsLost(env: Env, dirname: bytes, baseDir: bytes)
    requires EnvOk(env)
    ensures var value := PREFIX_PATH + "ca.pem" + [NUL];
            && CheckCertScheme(value) == Path
            && CertText(env, dirname, value).Some?
            && CertValue(env, baseDir, CertText(env, dirname, value).value) != Some(value)
  {
    hide CertValue, CertText, CheckCertScheme;
    var path: bytes := "ca.pem";
    AsciiPath(path);
    RelativePathIsMadeAbsolute(env, dirname, baseDir, PREFIX_PATH + path + [NUL]);
  }

  // ---------------------------------------------------------------- the functions of the program

  /** The one certificate property of NMSetting8021x that is looked at here. */
  class Setting8021x {
    var cert: Option<bytes>

    constructor ()
      ensures cert == None
    {
      cert := None;
    }

    /** _nm_setting_802_1x_cert_value_to_bytes: build the value in a buffer and accept it only if it is
        what it is meant to be; val ends with its NUL. */
    static method CertValueToBytes(scheme: Scheme, val: bytes) returns (value: Option<bytes>)
      requires scheme == Path || scheme == Pkcs11
      ensures var v := if scheme == Path then PREFIX_PATH + val else val;
              value == if CheckCertScheme(v) == scheme then Some(v) else None
    {
      var v := val;
      if scheme == Path {
        var mem := new byte[|PREFIX_PATH| + |val|];
        for i := 0 to |PREFIX_PATH|
          invariant mem[..i] == PREFIX_PATH[..i]
        {
          mem[i] := PREFIX_PATH[i];
        }
        for i := 0 to |val|
          invariant mem[..|PREFIX_PATH|] == PREFIX_PATH
          invariant mem[|PREFIX_PATH|..|PREFIX_PATH| + i] == val[..i]
        {
          mem[|PREFIX_PATH| + i] := val[i];
        }
        v := mem[..];
        assert mem[..] == mem[..|PREFIX_PATH|] + mem[|PREFIX_PATH|..|PREFIX_PATH| + |val|];
        assert val[..|val|] == val;
      }
      return if CheckCertScheme(v) == scheme then Some(v) else None;
    }

    method CertWriterDefault(file: KeyGroup, key: bytes, env: Env, dirname: bytes)
      requires cert.Some? && CheckCertScheme(cert.value) != Unknown
      modifies file
      ensures CertText(env, dirname, cert.value).Some?
      ensures file.Contents() == Set(old(file.Contents()), key, CertText(env, dirname, cert.value).value)
    {
      var value := cert.value;
      match CheckCertScheme(value) {
        case Path =>
          var path := CertGetPath(value);
          var baseDir := dirname;
          if path != [] && path[0] != '/' {
            baseDir := env.cwd;
            path := env.cwd + "/" + path;
            assert |path| > |CertGetPath(value)|;
          }
          var tmp := DetectUnqualifiedPath(env, baseDir, path, false);
          if tmp.None? {
            path := PREFIX_PATH + path;
          }
          file.SetString(key, path);
        case Blob =>
          file.SetString(key, PREFIX_BLOB + Base64.Encode(value));
        case Pkcs11 =>
          file.SetString(key, value[..|value| - 1]);
      }
    }

    method CertParser(file: KeyGroup, key: bytes, env: Env, baseDir: bytes)
      requires forall k :: k in file.vals ==> NoNul(file.vals[k])
      modifies this
      ensures var text := Get(file.Contents(), key);
              var value := if text.Some? then CertValue(env, baseDir, text.value) else None;
              cert == if value.Some? then value else old(cert)
    {
      var text := file.GetString(key);
      if text.None? {
        return;
      }
      var got := GetBytesFrom(text.value, true, false);
      var bin := if got.Some? then got.value else [];
      if |bin| == 0 {
        return;
      }
      if HasSchemePrefix(bin, PREFIX_PATH) {
        if CheckCertScheme(bin) == Path {
          cert := Some(bin);
        }
        return;
      }
      if HasSchemePrefix(bin, PREFIX_PKCS11) {
        if CheckCertScheme(bin) == Pkcs11 {
          cert := Some(bin);
        }
        return;
      }
      if HasSchemePrefix(bin, PREFIX_BLOB) {
        var cdata := bin[|PREFIX_BLOB|..|bin| - 1];
        var decoded := [];
        var validBase64 := Base64.IsStrict(cdata);
        if validBase64 {
          decoded := Base64.Decode(cdata);
        }
        if |decoded| != 0 && CheckCertScheme(decoded) == Blob {
          cert := Some(decoded);
        }
        return;
      }
      var path := DetectUnqualifiedPath(env, baseDir, bin, true);
      if path.Some? {
        cert := Some(path.value + [NUL]);
        return;
      }
      if CheckCertScheme(bin) == Blob {
        cert := Some(bin);
      }
    }
  }
}

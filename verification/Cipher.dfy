/** Keys from passwords and block padding.  MD5 and the block ciphers themselves are an Engine of which
    only the inverse law is assumed. */
module Cipher {
  import opened Options
  import opened Text

  datatype Cipher = DesEde3Cbc | DesCbc | Aes128Cbc | Aes192Cbc | Aes256Cbc

  function Name(c: Cipher): bytes {
    match c
    case DesEde3Cbc => "DES-EDE3-CBC"
    case DesCbc => "DES-CBC"
    case Aes128Cbc => "AES-128-CBC"
    case Aes192Cbc => "AES-192-CBC"
    case Aes256Cbc => "AES-256-CBC"
  }

  function DigestLen(c: Cipher): nat {
    match c
    case DesEde3Cbc => 24
    case DesCbc => 8
    case Aes128Cbc => 16
    case Aes192Cbc => 24
    case Aes256Cbc => 32
  }

  function RealIvLen(c: Cipher): (n: nat)
    ensures n == 8 || n == 16
  {
    if c == DesEde3Cbc || c == DesCbc then 8 else 16
  }

  /** Names, key lengths and vector lengths of the five ciphers. */
  lemma CipherTable()
    ensures Name(DesEde3Cbc) == "DES-EDE3-CBC" && DigestLen(DesEde3Cbc) == 24 && RealIvLen(DesEde3Cbc) == 8
    ensures Name(DesCbc) == "DES-CBC" && DigestLen(DesCbc) == 8 && RealIvLen(DesCbc) == 8
    ensures Name(Aes128Cbc) == "AES-128-CBC" && DigestLen(Aes128Cbc) == 16 && RealIvLen(Aes128Cbc) == 16
    ensures Name(Aes192Cbc) == "AES-192-CBC" && DigestLen(Aes192Cbc) == 24 && RealIvLen(Aes192Cbc) == 16
    ensures Name(Aes256Cbc) == "AES-256-CBC" && DigestLen(Aes256Cbc) == 32 && RealIvLen(Aes256Cbc) == 16
  {
  }

  /** The primitives of the crypto library: cipher, key and initialisation vector, then the data. */
  datatype Engine = Engine(
    md5: bytes -> bytes,
    encrypt: (Cipher, bytes, bytes, bytes) -> Option<bytes>,
    decrypt: (Cipher, bytes, bytes, bytes) -> Option<bytes>)

  /** Digests have 16 bytes; whole blocks can be encrypted, and decrypting gives them back; what can be
      decrypted is whole blocks and keeps its length. */
  ghost predicate EngineOk(e: Engine) {
    && (forall x: bytes :: |e.md5(x)| == 16)
    && (forall c, k: bytes, iv: bytes, x: bytes :: |x| % RealIvLen(c) == 0 ==> Inverse(e, c, k, iv, x))
    && (forall c, k: bytes, iv: bytes, x: bytes :: e.decrypt(c, k, iv, x).Some? ==>
          |x| % RealIvLen(c) == 0 && |e.decrypt(c, k, iv, x).value| == |x|)
  }

  ghost predicate Inverse(e: Engine, c: Cipher, k: bytes, iv: bytes, x: bytes) {
    && e.encrypt(c, k, iv, x).Some?
    && |e.encrypt(c, k, iv, x).value| == |x|
    && e.decrypt(c, k, iv, e.encrypt(c, k, iv, x).value) == Some(x)
  }

  // ---------------------------------------------------------------- keys

  /** The first len bytes of D1 D2 D3 ..., where each digest is that of the one before, the password and
      the salt. */
  ghost function KeyStream(e: Engine, prev: bytes, password: bytes, salt: bytes, len: nat): (k: bytes)
    requires EngineOk(e)
    ensures |k| == len
    decreases len
  {
    var d := e.md5(prev + password + salt);
    if len <= 16 then d[..len] else d + KeyStream(e, d, password, salt, len - 16)
  }

  lemma StreamBlock(e: Engine, prev: bytes, password: bytes, salt: bytes, len: nat)
    requires EngineOk(e)
    ensures var d := e.md5(prev + password + salt);
            && |d| == 16
            && KeyStream(e, prev, password, salt, len) ==
               if len < 16 then d[..len] else d + KeyStream(e, d, password, salt, len - 16)
  {
    var d := e.md5(prev + password + salt);
    assert |d| == 16;
    if len == 16 {
      assert d[..16] == d && KeyStream(e, d, password, salt, 0) == [];
    }
  }

  /** The inner loop: copy a digest behind what is there, as far as the buffer reaches. */
  method CopyDigest(digest: bytes, buffer: array<byte>, start: nat) returns (bufidx: nat, full: bool)
    requires start <= buffer.Length && |digest| == 16
    modifies buffer
    ensures full <==> buffer.Length < start + 16
    ensures bufidx == if full then buffer.Length else start + 16
    ensures buffer[..bufidx] == old(buffer[..start]) + digest[..bufidx - start]
  {
    bufidx := start;
    for i := 0 to 16
      invariant bufidx == start + i <= buffer.Length
      invariant buffer[..bufidx] == old(buffer[..start]) + digest[..i]
    {
      if bufidx >= buffer.Length {
        return bufidx, true;
      }
      buffer[bufidx] := digest[i];
      bufidx := bufidx + 1;
    }
    full := false;
  }

  /** nm_crypto_md5_hash */
  method Md5Hash(e: Engine, salt: bytes, password: bytes, buffer: array<byte>)
    requires EngineOk(e) && buffer.Length > 0
    modifies buffer
    ensures buffer[..] == KeyStream(e, [], password, salt, buffer.Length)
  {
    hide EngineOk, KeyStream;
    var bufidx := 0;
    var ctx: bytes := [];
    while true
      invariant bufidx <= buffer.Length
      invariant KeyStream(e, [], password, salt, buffer.Length) ==
                buffer[..bufidx] + KeyStream(e, ctx, password, salt, buffer.Length - bufidx)
      decreases buffer.Length - bufidx
    {
      StreamBlock(e, ctx, password, salt, buffer.Length - bufidx);
      var digest := e.md5(ctx + password + salt);
      ghost var before := buffer[..bufidx];
      var full: bool;
      bufidx, full := CopyDigest(digest, buffer, bufidx);
      if full {
        assert buffer[..] == buffer[..bufidx];
        return;
      }
      assert digest[..16] == digest;
      ctx := digest;
    }
  }

  /** nmtst_crypto_make_des_aes_key: no key without a password; only 8 bytes of salt are used. */
  method MakeDesAesKey(e: Engine, cipher: Cipher, salt: bytes, password: bytes) returns (key: Option<bytes>)
    requires EngineOk(e) && |salt| >= 8
    ensures key == Key(e, cipher, salt, password)
  {
    if |password| == 0 {
      return None;
    }
    var buffer := new byte[DigestLen(cipher)];
    Md5Hash(e, salt[..8], password, buffer);
    return Some(buffer[..]);
  }

  ghost function Key(e: Engine, cipher: Cipher, salt: bytes, password: bytes): Option<bytes>
    requires EngineOk(e) && |salt| >= 8
  {
    if password == [] then None else Some(KeyStream(e, [], password, salt[..8], DigestLen(cipher)))
  }

  /** The keys written out: the first digest is of password and salt, the second of the first digest,
      password and salt, and only the first 8 bytes of the salt count. */
  lemma KeysByDigest(e: Engine, salt: bytes, password: bytes)
    requires EngineOk(e) && |salt| >= 8 && password != []
    ensures var d1 := e.md5(password + salt[..8]);
            var d2 := e.md5(d1 + password + salt[..8]);
            && |d1| == 16 && |d2| == 16
            && Key(e, DesCbc, salt, password) == Some(d1[..8])
            && Key(e, Aes128Cbc, salt, password) == Some(d1)
            && Key(e, DesEde3Cbc, salt, password) == Some(d1 + d2[..8])
            && Key(e, Aes192Cbc, salt, password) == Some(d1 + d2[..8])
            && Key(e, Aes256Cbc, salt, password) == Some(d1 + d2)
  {
    var d1 := e.md5(password + salt[..8]);
    var d2 := e.md5(d1 + password + salt[..8]);
    assert [] + password == password;
    assert |d1| == 16 && |d2| == 16 && d1[..16] == d1 && d2[..16] == d2;
    var s := salt[..8];
    StreamBlock(e, [], password, s, 24);
    StreamBlock(e, d1, password, s, 8);
    StreamBlock(e, [], password, s, 32);
    StreamBlock(e, d1, password, s, 16);
  }

  // ---------------------------------------------------------------- padding

  /** Section 6.3 of RFC 5652: always at least one byte, each byte telling how many there are. */
  function Pad(data: bytes, block: nat): (p: bytes)
    requires 0 < block < 256
    ensures |p| % block == 0 && |p| > |data|
  {
    var n := block - |data| % block;
    PadLength(|data|, block);
    data + seq(n, _ => n as char)
  }

  lemma PadLength(n: nat, block: nat)
    requires block > 0
    ensures (n + (block - n % block)) % block == 0
  {
    assert n == n / block * block + n % block;
    MultipleOf(n / block + 1, block, n + (block - n % block));
  }

  lemma MultipleOf(k: nat, block: nat, n: nat)
    requires block > 0 && n == k * block
    ensures n % block == 0
  {
    var q, r := n / block, n % block;
    assert n == q * block + r;
    var d := k - q;
    assert d * block == r;
    if d > 0 { AtLeast(d, block); }
    if d < 0 { AtLeast(-d, block); }
  }

  lemma AtLeast(d: int, block: nat)
    requires d > 0
    ensures d * block >= block
  {
  }

  function Unpad(out: bytes, limit: nat): Option<bytes> {
    var n := if out == [] then 0 else out[|out| - 1] as int;
    if n == 0 || n > limit || n > |out| || exists i :: |out| - n <= i < |out| && out[i] as int != n then None
    else Some(out[..|out| - n])
  }

  lemma PadRoundTrip(data: bytes, block: nat)
    requires 0 < block < 256
    ensures Unpad(Pad(data, block), block) == Some(data)
  {
    var p := Pad(data, block);
    var n := block - |data| % block;
    assert p[|p| - 1] as int == n;
    assert p[..|p| - n] == data;
  }

  /** Bytes are accepted exactly if they end in one to limit bytes that tell their own number. */
  lemma UnpadMeans(out: bytes, limit: nat, data: bytes)
    requires limit < 256
    ensures Unpad(out, limit) == Some(data) <==>
            exists n :: 1 <= n <= limit && IsPadded(out, data, n)
  {
    if Unpad(out, limit) == Some(data) {
      assert IsPadded(out, data, out[|out| - 1] as int);
    }
    if n :| 1 <= n <= limit && IsPadded(out, data, n) {
      assert out[|out| - 1] as int == n;
      assert out[..|out| - n] == data;
    }
  }

  ghost predicate IsPadded(out: bytes, data: bytes, n: nat) {
    n < 256 && out == data + seq(n, _ => n as char)
  }

  /** _nmtst_crypto_encrypt; DES with a single key can be read but not written. */
  method CryptoEncrypt(e: Engine, cipher: Cipher, data: bytes, iv: bytes, key: bytes) returns (out: Option<bytes>)
    requires 0 < |iv| < 256
    ensures out == if cipher == DesCbc then None else e.encrypt(cipher, key, iv, Pad(data, |iv|))
  {
    if cipher == DesCbc {
      return None;
    }
    var padLen := |iv| - |data| % |iv|;
    var padded := new byte[|data| + padLen];
    for i := 0 to |data|
      invariant padded[..i] == data[..i]
    {
      padded[i] := data[i];
    }
    for i := 0 to padLen
      invariant padded[..|data|] == data
      invariant forall k :: |data| <= k < |data| + i ==> padded[k] as int == padLen
    {
      padded[|data| + i] := (padLen % 256) as char;
    }
    assert padded[..] == Pad(data, |iv|);
    out := e.encrypt(cipher, key, iv, padded[..]);
  }

  function Decrypted(e: Engine, cipher: Cipher, data: bytes, iv: bytes, key: bytes): Option<bytes> {
    if |iv| < RealIvLen(cipher) then None
    else
      match e.decrypt(cipher, key, iv, data)
      case None => None
      case Some(out) => Unpad(out, RealIvLen(cipher))
  }

  /** A vector that is too short for the cipher decrypts nothing; a longer one is handed on as it is. */
  lemma VectorLength(e: Engine, cipher: Cipher, data: bytes, iv: bytes, key: bytes)
    ensures |iv| < (if cipher in {DesEde3Cbc, DesCbc} then 8 else 16) ==> Decrypted(e, cipher, data, iv, key) == None
    ensures Decrypted(e, cipher, data, iv, key).Some? ==>
              && e.decrypt(cipher, key, iv, data).Some?
              && Unpad(e.decrypt(cipher, key, iv, data).value, RealIvLen(cipher)) == Decrypted(e, cipher, data, iv, key)
  {
  }

  /** _nmtst_crypto_decrypt */
  method CryptoDecrypt(e: Engine, cipher: Cipher, data: bytes, iv: bytes, key: bytes) returns (plain: Option<bytes>)
    requires EngineOk(e)
    ensures plain == Decrypted(e, cipher, data, iv, key)
  {
    var realIvLen := RealIvLen(cipher);
    if |iv| < realIvLen {
      return None;
    }
    var output := e.decrypt(cipher, key, iv, data);
    if output.None? {
      return None;
    }
    var out := output.value;
    var padLen := if |out| > 0 then out[|out| - 1] as int else 0;
    if padLen == 0 || padLen > realIvLen {
      return None;
    }
    WholeBlocks(|data|, realIvLen);
    var padI := 1;
    while padI <= padLen
      invariant 1 <= padI <= padLen + 1
      invariant forall i :: |out| - padI < i < |out| ==> out[i] as int == padLen
    {
      if out[|data| - padI] as int != padLen {
        return None;
      }
      padI := padI + 1;
    }
    return Some(out[..|out| - padLen]);
  }

  lemma WholeBlocks(n: nat, block: nat)
    requires block > 0
    ensures n % block == 0 && n > 0 ==> n >= block
  {
  }

  /** What was encrypted under a key and vector is decrypted to the same bytes. */
  lemma CipherRoundTrip(e: Engine, cipher: Cipher, data: bytes, iv: bytes, key: bytes)
    requires EngineOk(e) && |iv| == RealIvLen(cipher)
    ensures var x := e.encrypt(cipher, key, iv, Pad(data, |iv|));
            x.Some? && Decrypted(e, cipher, x.value, iv, key) == Some(data)
  {
    PadRoundTrip(data, |iv|);
    assert Inverse(e, cipher, key, iv, Pad(data, |iv|));
  }
}

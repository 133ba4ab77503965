/** nm_utils_strbuf_append_str: append to a fixed buffer, keeping it NUL terminated and never overrunning
    it.  The buffer is an array, the position and the room left are indices into it. */
module StrBuf {
  import opened Text

  method Append(buf: array<byte>, pos: nat, len: nat, str: bytes) returns (pos': nat, len': nat)
    requires pos + len <= buf.Length
    modifies buf
    ensures buf[..pos] == old(buf[..pos]) && buf[pos + len..] == old(buf[pos + len..])
    ensures |str| < len ==>
              && pos' == pos + |str| && len' == len - |str|
              && buf[pos..pos'] == str && buf[pos'] == NUL
    ensures |str| >= len ==>
              && pos' == pos + len && len' == 0
              && (len > 0 ==> buf[pos..pos' - 1] == str[..len - 1] && buf[pos' - 1] == NUL)
  {
    if len == 0 {
      return pos, len;
    }
    var n := if |str| < len then |str| else len - 1;
    for i := 0 to n
      invariant buf[..pos] == old(buf[..pos]) && buf[pos + len..] == old(buf[pos + len..])
      invariant buf[pos..pos + i] == str[..i]
    {
      buf[pos + i] := str[i];
    }
    buf[pos + n] := NUL;
    assert buf[pos..pos + n] == str[..n];
    if |str| >= len {
      return pos + len, 0;
    }
    assert str[..n] == str;
    return pos + n, len - n;
  }
}

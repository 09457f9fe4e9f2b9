/** The two C-library string routines the queries rely on, over a byte buffer:
    `strcmp(s, p) == 0` and `strdup(p)` for a pointer `p` into the buffer. */
module CStrings {
  import opened Bytes

  /** `buf` holds the C string `s` at offset `off`: its bytes, then a NUL. */
  ghost predicate HoldsCString(buf: seq<byte>, off: nat, s: seq<byte>)
  {
    IsCString(s) && off + |s| < |buf| && buf[off..off + |s|] == s && buf[off + |s|] == 0
  }

  /** strcmp(s, buf + off) == 0: walks both strings until a difference or the terminator. */
  method CStringEquals(buf: seq<byte>, off: nat, ghost stored: seq<byte>, s: seq<byte>) returns (eq: bool)
    requires HoldsCString(buf, off, stored) && IsCString(s)
    ensures eq <==> s == stored
  {
    var j := 0;
    while j < |s| && buf[off + j] != 0 && buf[off + j] == s[j]
      invariant 0 <= j <= |s| && j <= |stored|
      invariant s[..j] == stored[..j]
    {
      assert buf[off + j] == stored[j];
      j := j + 1;
    }
    // the byte of `s` at j is its terminator when j == |s|
    var c: byte := if j < |s| then s[j] else 0;
    assert j < |stored| ==> buf[off + j] == stored[j];
    eq := c == buf[off + j];
    if eq {
      assert j == |s| && j == |stored|;
      assert s == s[..j] && stored == stored[..j];
    }
  }

  /** strdup(buf + off): measures the string up to its NUL and copies it out. */
  method CStringCopy(buf: seq<byte>, off: nat, ghost stored: seq<byte>) returns (s: seq<byte>)
    requires HoldsCString(buf, off, stored)
    ensures s == stored
  {
    var n := 0;
    while buf[off + n] != 0
      invariant 0 <= n <= |stored|
      decreases |stored| - n
    {
      assert buf[off + n] == stored[n];
      n := n + 1;
    }
    assert n == |stored|;
    s := buf[off..off + n];
  }
}

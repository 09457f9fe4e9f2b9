/** sha1_to_str: Base16 encoding with the uppercase alphabet (section 8 of RFC 4648),
    two digits per byte, high nibble first, written into a caller's buffer with a NUL. */
module Hex {
  import opened Bytes

  /** The success code of sha1_to_str (ERR_SUCCESS). */
  const ErrSuccess: int := 0
  /** The refusal code of sha1_to_str when the buffer is too small. */
  const ErrBufferTooSmall: int := -1

  /** '0'..'9' and 'A'..'F'. */
  predicate IsUpperHexDigit(c: byte)
  {
    48 <= c <= 57 || 65 <= c <= 70
  }

  /** The digit `%X` prints for a nibble. */
  function Digit(v: int): byte
    requires 0 <= v < 16
  {
    if v < 10 then (48 + v) as byte else (55 + v) as byte
  }

  /** The nibble an uppercase hex digit stands for, or None for any other byte. */
  function DigitValue(c: byte): (v: Option<int>)
    ensures v.Some? <==> IsUpperHexDigit(c)
    ensures v.Some? ==> 0 <= v.value < 16 && Digit(v.value) == c
  {
    if 48 <= c <= 57 then Some(c as int - 48)
    else if 65 <= c <= 70 then Some(c as int - 55)
    else None
  }

  /** Reading back the digit printed for a nibble gives the nibble. */
  lemma DigitRoundTrip(v: int)
    requires 0 <= v < 16
    ensures DigitValue(Digit(v)) == Some(v)
  {
  }

  /** The `%02X` rendering of every byte of `data`, one after the other. */
  function Encode(data: seq<byte>): (r: seq<byte>)
    ensures |r| == 2 * |data|
    ensures forall i :: 0 <= i < |data| ==>
      r[2 * i] == Digit(data[i] as int / 16) && r[2 * i + 1] == Digit(data[i] as int % 16)
  {
    if data == [] then []
    else [Digit(data[0] as int / 16), Digit(data[0] as int % 16)] + Encode(data[1..])
  }

  /** Reads digit pairs back into bytes; None unless `s` is an even number of uppercase hex digits. */
  function Decode(s: seq<byte>): (r: Option<seq<byte>>)
    ensures r.Some? ==> 2 * |r.value| == |s|
  {
    if s == [] then Some([])
    else if |s| == 1 then None
    else
      match (DigitValue(s[0]), DigitValue(s[1]), Decode(s[2..]))
      case (Some(hi), Some(lo), Some(rest)) => Some([(hi * 16 + lo) as byte] + rest)
      case _ => None
  }

  /** Every byte of an encoding is an uppercase hex digit, so in particular no NUL. */
  lemma EncodeIsUpperHex(data: seq<byte>)
    ensures forall i :: 0 <= i < |Encode(data)| ==> IsUpperHexDigit(Encode(data)[i])
    ensures IsCString(Encode(data))
  {
    var r := Encode(data);
    forall i | 0 <= i < |r| ensures IsUpperHexDigit(r[i]) {
      var j := i / 2;
      if i % 2 == 0 {
        assert r[2 * j] == Digit(data[j] as int / 16);
      } else {
        assert r[2 * j + 1] == Digit(data[j] as int % 16);
      }
    }
  }

  /** Decoding an encoding gives back the bytes. */
  lemma {:induction false} DecodeEncode(data: seq<byte>)
    ensures Decode(Encode(data)) == Some(data)
  {
    if data != [] {
      var hi, lo := data[0] as int / 16, data[0] as int % 16;
      var rest := Encode(data[1..]);
      var e := [Digit(hi), Digit(lo)] + rest;
      assert Encode(data) == e;
      assert e[0] == Digit(hi) && e[1] == Digit(lo) && e[2..] == rest;
      DecodeEncode(data[1..]);
      DigitRoundTrip(hi);
      DigitRoundTrip(lo);
      assert (hi * 16 + lo) as byte == data[0];
      assert Decode(e) == Some([data[0]] + data[1..]);
      assert [data[0]] + data[1..] == data;
    }
  }

  /** Anything that decodes is the (unique) encoding of what it decodes to. */
  lemma {:induction false} EncodeDecode(s: seq<byte>)
    requires Decode(s).Some?
    ensures Encode(Decode(s).value) == s
  {
    if s != [] {
      var hi, lo := DigitValue(s[0]).value, DigitValue(s[1]).value;
      var rest := Decode(s[2..]).value;
      EncodeDecode(s[2..]);
      var b := (hi * 16 + lo) as byte;
      assert b as int / 16 == hi && b as int % 16 == lo;
      assert Decode(s).value == [b] + rest;
      assert ([b] + rest)[1..] == rest;
      assert s == [s[0], s[1]] + s[2..];
    }
  }

  /** The decoder and the encoder are inverse: a string decodes to `data` exactly when it is `data`'s encoding. */
  lemma DecodeIffEncode(s: seq<byte>, data: seq<byte>)
    ensures Decode(s) == Some(data) <==> s == Encode(data)
  {
    DecodeEncode(data);
    if Decode(s) == Some(data) {
      EncodeDecode(s);
    }
  }

  /** sha1_to_str(hash, hashlen, buf, buflen), with `buflen` the length of `buf`: refuses with -1
      and writes nothing when the buffer cannot hold 2*hashlen+1 bytes; otherwise writes the
      encoding followed by a NUL and leaves the rest of the buffer alone. */
  method Sha1ToStr(hash: seq<byte>, buf: array<byte>) returns (ret: int)
    modifies buf
    ensures ret == ErrBufferTooSmall <==> buf.Length < 2 * |hash| + 1
    ensures ret != ErrBufferTooSmall ==> ret == ErrSuccess
    ensures ret == ErrBufferTooSmall ==> buf[..] == old(buf[..])
    ensures ret == ErrSuccess ==>
      && buf[..2 * |hash|] == Encode(hash)
      && buf[2 * |hash|] == 0
      && buf[2 * |hash| + 1..] == old(buf[2 * |hash| + 1..])
  {
    if buf.Length < 2 * |hash| + 1 {
      return ErrBufferTooSmall;
    }
    var i := 0;
    while i < |hash|
      invariant 0 <= i <= |hash|
      invariant forall k :: 0 <= k < i ==>
        buf[2 * k] == Digit(hash[k] as int / 16) && buf[2 * k + 1] == Digit(hash[k] as int % 16)
      invariant forall k :: 2 * i < k < buf.Length ==> buf[k] == old(buf[k])
    {
      // each step prints byte i as two digits and a NUL after them
      buf[2 * i] := Digit(hash[i] as int / 16);
      buf[2 * i + 1] := Digit(hash[i] as int % 16);
      buf[2 * i + 2] := 0;
      i := i + 1;
    }
    buf[2 * i] := 0;
    var e := Encode(hash);
    forall j | 0 <= j < 2 * |hash| ensures buf[j] == e[j] {
      var k := j / 2;
      assert buf[2 * k] == e[2 * k] && buf[2 * k + 1] == e[2 * k + 1];
      assert j == 2 * k || j == 2 * k + 1;
    }
    assert buf[..2 * |hash|] == e;
    return ErrSuccess;
  }

  /** The encoding of two runs of bytes is the encoding of the first followed by that of the
      second: each byte is rendered on its own, as each `%02X` call of the loop does. */
  lemma {:induction false} EncodeAppend(a: seq<byte>, b: seq<byte>)
    ensures Encode(a + b) == Encode(a) + Encode(b)
  {
    if a == [] {
      assert a + b == b;
    } else {
      assert (a + b)[0] == a[0] && (a + b)[1..] == a[1..] + b;
      EncodeAppend(a[1..], b);
    }
  }

  /** The worked example: three bytes give six uppercase digits. */
  lemma EncodeExample()
    ensures Encode([0x00, 0x11, 0xAB]) == Ascii("0011AB")
  {
    var e := Encode([0x00, 0x11, 0xAB]);
    assert e == [48, 48, 49, 49, 65, 66];
  }
}

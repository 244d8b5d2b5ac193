/** UTF-8 as defined in section 3 of RFC 3629, for measuring decoded text in
    bytes. A Dafny `char` is a Unicode scalar value, so a decoded Rust `String`
    is a `seq<char>`; its `len()` is the length of its UTF-8 encoding. */
module Utf8 {

  newtype byte = x: int | 0 <= x < 256

  /** Number of bytes UTF-8 uses for one scalar value. */
  function ScalarLength(c: char): (n: nat)
    ensures 1 <= n <= 4
    ensures n == 1 <==> (c as int) < 0x80
  {
    var v := c as int;
    if v < 0x80 then 1 else if v < 0x800 then 2 else if v < 0x1_0000 then 3 else 4
  }

  predicate IsContinuation(b: byte)
  {
    0x80 <= b < 0xC0
  }

  /** Sequence length announced by a lead byte (0 for a byte that cannot lead). */
  function LeadLength(b: byte): nat
  {
    if b < 0x80 then 1
    else if b < 0xC0 then 0
    else if b < 0xE0 then 2
    else if b < 0xF0 then 3
    else if b < 0xF8 then 4
    else 0
  }

  /** Value carried by a well-formed sequence of `LeadLength` bytes. */
  function DecodeScalarValue(bytes: seq<byte>): int
    requires 1 <= |bytes| <= 4
  {
    var b0, n := bytes[0] as int, |bytes|;
    if n == 1 then b0
    else if n == 2 then (b0 - 0xC0) * 0x40 + Payload(bytes[1])
    else if n == 3 then ((b0 - 0xE0) * 0x40 + Payload(bytes[1])) * 0x40 + Payload(bytes[2])
    else (((b0 - 0xF0) * 0x40 + Payload(bytes[1])) * 0x40 + Payload(bytes[2])) * 0x40 + Payload(bytes[3])
  }

  /** The six value bits of a continuation byte. */
  function Payload(b: byte): int
  {
    b as int - 0x80
  }

  /** The UTF-8 encoding of one scalar value: its first byte announces its
      length, the other bytes are continuation bytes, and it decodes back to
      the scalar. */
  function EncodeScalar(c: char): (bytes: seq<byte>)
    ensures |bytes| == ScalarLength(c)
    ensures LeadLength(bytes[0]) == |bytes|
    ensures forall i :: 1 <= i < |bytes| ==> IsContinuation(bytes[i])
    ensures DecodeScalarValue(bytes) == c as int
  {
    var v := c as int;
    if v < 0x80 then [v as byte]
    else if v < 0x800 then EncodeTwo(v)
    else if v < 0x1_0000 then EncodeThree(v)
    else EncodeFour(v)
  }

  function EncodeTwo(v: int): (bytes: seq<byte>)
    requires 0x80 <= v < 0x800
    ensures |bytes| == 2 && LeadLength(bytes[0]) == 2 && IsContinuation(bytes[1])
    ensures DecodeScalarValue(bytes) == v
  {
    var hi, lo := v / 0x40, v % 0x40;
    assert v == hi * 0x40 + lo;
    [(0xC0 + hi) as byte, (0x80 + lo) as byte]
  }

  function EncodeThree(v: int): (bytes: seq<byte>)
    requires 0x800 <= v < 0x1_0000
    ensures |bytes| == 3 && LeadLength(bytes[0]) == 3
    ensures IsContinuation(bytes[1]) && IsContinuation(bytes[2])
    ensures DecodeScalarValue(bytes) == v
  {
    var top, lo := v / 0x40, v % 0x40;
    var hi, mid := top / 0x40, top % 0x40;
    assert v == top * 0x40 + lo;
    assert top == hi * 0x40 + mid;
    assert hi < 0x10;
    [(0xE0 + hi) as byte, (0x80 + mid) as byte, (0x80 + lo) as byte]
  }

  function EncodeFour(v: int): (bytes: seq<byte>)
    requires 0x1_0000 <= v < 0x11_0000
    ensures |bytes| == 4 && LeadLength(bytes[0]) == 4
    ensures IsContinuation(bytes[1]) && IsContinuation(bytes[2]) && IsContinuation(bytes[3])
    ensures DecodeScalarValue(bytes) == v
  {
    var top, lo := v / 0x40, v % 0x40;
    var upper, mid := top / 0x40, top % 0x40;
    var hi, high := upper / 0x40, upper % 0x40;
    assert v == top * 0x40 + lo;
    assert top == upper * 0x40 + mid;
    assert upper == hi * 0x40 + high;
    assert hi < 0x8;
    [(0xF0 + hi) as byte, (0x80 + high) as byte, (0x80 + mid) as byte, (0x80 + lo) as byte]
  }

  /** The UTF-8 encoding of a text. */
  function Encode(s: string): (bytes: seq<byte>)
    decreases |s|
  {
    if |s| == 0 then [] else EncodeScalar(s[0]) + Encode(s[1..])
  }

  /** Rust's `str::len`: the number of bytes of the UTF-8 encoding. */
  function ByteLength(s: string): nat
    decreases |s|
  {
    if |s| == 0 then 0 else ScalarLength(s[0]) + ByteLength(s[1..])
  }

  /** `ByteLength` is the length of `Encode`. */
  lemma {:induction false} ByteLengthIsEncodedLength(s: string)
    ensures |Encode(s)| == ByteLength(s)
    decreases |s|
  {
    if |s| > 0 {
      ByteLengthIsEncodedLength(s[1..]);
    }
  }

  /** Encoding distributes over concatenation. */
  lemma {:induction false} EncodeAppend(a: string, b: string)
    ensures Encode(a + b) == Encode(a) + Encode(b)
    ensures ByteLength(a + b) == ByteLength(a) + ByteLength(b)
    decreases |a|
  {
    if |a| > 0 {
      assert (a + b)[0] == a[0];
      assert (a + b)[1..] == a[1..] + b;
      EncodeAppend(a[1..], b);
    } else {
      assert a + b == b;
    }
  }

  /** A text takes at least one and at most four bytes per scalar; pure ASCII
      takes exactly one. */
  lemma {:induction false} ByteLengthBounds(s: string)
    ensures |s| <= ByteLength(s) <= 4 * |s|
    ensures (forall i :: 0 <= i < |s| ==> (s[i] as int) < 0x80) <==> ByteLength(s) == |s|
    decreases |s|
  {
    if |s| > 0 {
      ByteLengthBounds(s[1..]);
      if forall i :: 0 <= i < |s| ==> (s[i] as int) < 0x80 {
        assert forall i :: 0 <= i < |s[1..]| ==> (s[1..][i] as int) < 0x80 by {
          forall i | 0 <= i < |s[1..]| ensures (s[1..][i] as int) < 0x80 {
            assert s[1..][i] == s[i + 1];
          }
        }
      }
      if ByteLength(s) == |s| {
        assert ScalarLength(s[0]) == 1;
        forall i | 0 <= i < |s| ensures (s[i] as int) < 0x80 {
          if i > 0 {
            assert s[i] == s[1..][i - 1];
          }
        }
      }
    }
  }

  /** Rust's `str::is_char_boundary` on the encoded bytes. */
  predicate IsCharBoundary(bytes: seq<byte>, k: nat)
  {
    k == |bytes| || (k < |bytes| && !IsContinuation(bytes[k]))
  }

  /** Cutting a text between two scalars cuts its encoding on a character
      boundary: the bytes of the tail are exactly the bytes after the cut, and
      the cut byte is not in the middle of a multi-byte sequence. */
  lemma CutIsCharBoundary(s: string, k: nat)
    requires k <= |s|
    ensures Encode(s) == Encode(s[..k]) + Encode(s[k..])
    ensures IsCharBoundary(Encode(s), ByteLength(s[..k]))
  {
    assert s == s[..k] + s[k..];
    EncodeAppend(s[..k], s[k..]);
    ByteLengthIsEncodedLength(s[..k]);
    if k < |s| {
      var tail := s[k..];
      assert Encode(tail) == EncodeScalar(tail[0]) + Encode(tail[1..]);
      assert Encode(s)[ByteLength(s[..k])] == EncodeScalar(tail[0])[0];
    } else {
      ByteLengthIsEncodedLength(s);
    }
  }
}

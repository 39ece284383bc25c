/** UTF-8 as the Rust standard library sees a string: bytes, byte lengths and character boundaries. */
module Utf8 {
  import opened ByteStrings

  /** `char::len_utf8`. */
  function Width(c: char): (n: nat)
    ensures 1 <= n <= 4
  {
    var n := c as int;
    if n < 0x80 then 1 else if n < 0x800 then 2 else if n < 0x1_0000 then 3 else 4
  }

  /** The encoding of one Unicode scalar value (RFC 3629, section 3). */
  function EncodeChar(c: char): (r: Bytes)
    ensures |r| == Width(c)
    ensures !IsContinuation(r[0])
    ensures forall i :: 1 <= i < |r| ==> IsContinuation(r[i])
  {
    var n := c as int;
    if n < 0x80 then [n]
    else if n < 0x800 then [0xC0 + n / 64, 0x80 + n % 64]
    else if n < 0x1_0000 then [0xE0 + n / 4096, 0x80 + n / 64 % 64, 0x80 + n % 64]
    else [0xF0 + n / 262144, 0x80 + n / 4096 % 64, 0x80 + n / 64 % 64, 0x80 + n % 64]
  }

  /** The payload bits of an encoding, by the mark of its first octet (RFC 3629, section 3). */
  function Payload(bs: Bytes): int
    requires 1 <= |bs| <= 4
  {
    if |bs| == 1 then bs[0]
    else if |bs| == 2 then 64 * (bs[0] as int - 0xC0) + (bs[1] as int - 0x80)
    else if |bs| == 3 then 4096 * (bs[0] as int - 0xE0) + 64 * (bs[1] as int - 0x80) + (bs[2] as int - 0x80)
    else 262144 * (bs[0] as int - 0xF0) + 4096 * (bs[1] as int - 0x80) + 64 * (bs[2] as int - 0x80)
         + (bs[3] as int - 0x80)
  }

  /** An encoding carries its scalar value. */
  lemma CharIsCarried(c: char)
    ensures Payload(EncodeChar(c)) == c as int
  {
    SixBits(c as int);
  }

  lemma SixBits(n: nat)
    ensures 64 * (n / 64) + n % 64 == n
    ensures 4096 * (n / 4096) + 64 * (n / 64 % 64) + n % 64 == n
    ensures 262144 * (n / 262144) + 4096 * (n / 4096 % 64) + 64 * (n / 64 % 64) + n % 64 == n
  {
    assert n / 64 / 64 == n / 4096 && n / 4096 / 64 == n / 262144;
  }

  predicate IsContinuation(b: Byte) {
    0x80 <= b < 0xC0
  }

  function Encode(s: string): Bytes {
    if s == "" then [] else EncodeChar(s[0]) + Encode(s[1..])
  }

  /** `str::len`: the number of UTF-8 bytes. */
  function ByteLen(s: string): nat {
    if s == "" then 0 else Width(s[0]) + ByteLen(s[1..])
  }

  lemma {:induction false} EncodedLength(s: string)
    ensures |Encode(s)| == ByteLen(s)
  {
    if s != "" {
      EncodedLength(s[1..]);
    }
  }

  /** `str::is_char_boundary`. */
  predicate IsCharBoundary(bs: Bytes, i: nat) {
    i == 0 || i == |bs| || (i < |bs| && !IsContinuation(bs[i]))
  }

  lemma {:induction false} EncodeConcat(a: string, b: string)
    ensures Encode(a + b) == Encode(a) + Encode(b)
  {
    if a == "" {
      assert a + b == b;
    } else {
      EncodeConcat(a[1..], b);
      assert (a + b)[1..] == a[1..] + b;
      var first, rest := EncodeChar(a[0]), Encode(a[1..]);
      assert first + (rest + Encode(b)) == (first + rest) + Encode(b);
    }
  }

  lemma {:induction false} ByteLenConcat(a: string, b: string)
    ensures ByteLen(a + b) == ByteLen(a) + ByteLen(b)
  {
    if a == "" {
      assert a + b == b;
    } else {
      ByteLenConcat(a[1..], b);
      assert (a + b)[1..] == a[1..] + b;
    }
  }

  /** Every character takes one to four bytes. */
  lemma {:induction false} ByteLenBounds(s: string)
    ensures |s| <= ByteLen(s) <= 4 * |s|
  {
    if s != "" {
      ByteLenBounds(s[1..]);
    }
  }

  lemma {:induction false} AsciiByteLen(s: string)
    requires forall i :: 0 <= i < |s| ==> s[i] as int < 0x80
    ensures ByteLen(s) == |s|
  {
    if s != "" {
      AsciiByteLen(s[1..]);
    }
  }

  /** A prefix has no more bytes, and equally many only when it is the whole string. */
  lemma PrefixByteLen(p: string, s: string)
    requires p <= s
    ensures ByteLen(p) <= ByteLen(s)
    ensures ByteLen(p) == ByteLen(s) ==> p == s
  {
    var rest := s[|p|..];
    assert s == p + rest;
    ByteLenConcat(p, rest);
    ByteLenBounds(rest);
  }

  /** The characters whose encodings make up exactly the first `end` bytes: the slice `&s[..end]`. */
  function SliceTo(s: string, end: nat): (r: string)
    requires end <= ByteLen(s) && IsCharBoundary(Encode(s), end)
    ensures r <= s && ByteLen(r) == end
    decreases s
  {
    if end == 0 then ""
    else
      assert s != "";
      BoundaryAfterFirst(s, end);
      var r := [s[0]] + SliceTo(s[1..], end - Width(s[0]));
      assert r[1..] == SliceTo(s[1..], end - Width(s[0]));
      r
  }

  lemma BoundaryAfterFirst(s: string, end: nat)
    requires s != "" && 0 < end <= ByteLen(s) && IsCharBoundary(Encode(s), end)
    ensures Width(s[0]) <= end
    ensures IsCharBoundary(Encode(s[1..]), end - Width(s[0]))
  {
    EncodedLength(s);
    EncodedLength(s[1..]);
    if Width(s[0]) < end < ByteLen(s) {
      assert Encode(s)[end] == Encode(s[1..])[end - Width(s[0])];
    }
  }

  /** The byte length of every prefix is a character boundary. */
  lemma PrefixIsBoundary(p: string, s: string)
    requires p <= s
    ensures ByteLen(p) <= ByteLen(s)
    ensures IsCharBoundary(Encode(s), ByteLen(p))
  {
    var rest := s[|p|..];
    assert s == p + rest;
    EncodeConcat(p, rest);
    EncodedLength(p);
    EncodedLength(s);
    EncodedLength(rest);
    if rest != "" {
      assert Encode(s)[ByteLen(p)] == Encode(rest)[0] == EncodeChar(rest[0])[0];
    }
  }
}

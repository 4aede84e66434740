/**
 * Octets, 32-bit unsigned integers and the big-endian (network order) 32-bit
 * encoding that the frame header and every length prefix use.
 * A C++ std::string is a sequence of chars that are octets; Dafny strings
 * hold wider characters, so the conversions below truncate to 8 bits, as a
 * cast to uint8_t does.
 */
module Bytes {
  type Byte = b: int | 0 <= b < 256

  const TWO32: int := 0x1_0000_0000

  /** uint32_t */
  type U32 = x: int | 0 <= x < TWO32

  /** uint64_t */
  type U64 = x: int | 0 <= x < 0x1_0000_0000_0000_0000

  /** int16_t */
  type Int16 = x: int | -32768 <= x < 32768

  /** The zero bytes std::vector::resize appends, and the zeroed buffers the protocol declares. */
  function Zeros(n: nat): (z: seq<Byte>)
    ensures |z| == n && forall i :: 0 <= i < n ==> z[i] == 0
  {
    seq(n, _ => 0)
  }

  lemma ZerosSuffix(m: nat, k: nat)
    requires k <= m
    ensures Zeros(m)[k..] == Zeros(m - k)
  {
  }

  /** static_cast<uint32_t> of a size or of a (possibly negative) int: reduction modulo 2^32. */
  function Trunc32(n: int): (r: U32)
    ensures 0 <= n < TWO32 ==> r == n
  {
    n % TWO32
  }

  /** htonl followed by a memcpy of the four bytes: most significant byte first. */
  function Be32(x: U32): (r: seq<Byte>)
    ensures |r| == 4
  {
    [x / 0x100_0000, (x / 0x1_0000) % 256, (x / 0x100) % 256, x % 256]
  }

  /** memcpy of four bytes followed by ntohl. */
  function ReadBe32(b: seq<Byte>): (r: U32)
    requires |b| >= 4
    ensures r < 0x100_0000 <==> b[0] == 0
  {
    (b[0] as int) * 0x100_0000 + (b[1] as int) * 0x1_0000 + (b[2] as int) * 0x100 + b[3] as int
  }

  /** Reading back the four bytes written by Be32 yields the original value, whatever follows them. */
  lemma ReadBe32OfBe32(x: U32, rest: seq<Byte>)
    ensures ReadBe32(Be32(x) + rest) == x
  {
    var b := Be32(x) + rest;
    assert b[0] == x / 0x100_0000 && b[1] == (x / 0x1_0000) % 256;
    assert b[2] == (x / 0x100) % 256 && b[3] == x % 256;
    var q1 := x / 0x100;
    var q2 := q1 / 0x100;
    assert x == q1 * 0x100 + x % 256;
    assert q1 == q2 * 0x100 + q1 % 256;
    assert q2 < 0x1_0000;
    assert q2 == (q2 / 0x100) * 0x100 + q2 % 256;
    assert x / 0x1_0000 == q2;
    assert x / 0x100_0000 == q2 / 0x100;
  }

  /** Encoding the value read from four bytes gives those bytes back. */
  lemma Be32OfReadBe32(b: seq<Byte>)
    requires |b| == 4
    ensures Be32(ReadBe32(b)) == b
  {
    var x := ReadBe32(b);
    assert x == (((b[0] as int) * 0x100 + b[1] as int) * 0x100 + b[2] as int) * 0x100 + b[3] as int;
    assert x % 256 == b[3] && x / 0x100 == ((b[0] as int) * 0x100 + b[1] as int) * 0x100 + b[2] as int;
    var q1 := x / 0x100;
    assert q1 % 256 == b[2] && q1 / 0x100 == (b[0] as int) * 0x100 + b[1] as int;
    var q2 := q1 / 0x100;
    assert q2 % 256 == b[1] && q2 / 0x100 == b[0];
    assert x / 0x1_0000 == q2;
    assert x / 0x100_0000 == b[0];
  }

  /** Be32 is injective: distinct values have distinct encodings. */
  lemma Be32Injective(x: U32, y: U32)
    requires Be32(x) == Be32(y)
    ensures x == y
  {
    ReadBe32OfBe32(x, []);
    ReadBe32OfBe32(y, []);
    assert Be32(x) + [] == Be32(x) && Be32(y) + [] == Be32(y);
  }

  /** A std::string whose characters all fit in one octet. */
  predicate IsOctets(s: string)
  {
    forall i :: 0 <= i < |s| ==> s[i] as int < 256
  }

  lemma OctetsConcat(a: string, b: string)
    requires IsOctets(a) && IsOctets(b)
    ensures IsOctets(a + b)
  {
    forall i | 0 <= i < |a + b|
      ensures (a + b)[i] as int < 256
    {
      if i >= |a| {
        assert (a + b)[i] == b[i - |a|];
      }
    }
  }

  lemma OctetsSlice(s: string, i: nat, j: nat)
    requires IsOctets(s) && i <= j <= |s|
    ensures IsOctets(s[i..j])
  {
    forall k | 0 <= k < j - i
      ensures s[i..j][k] as int < 256
    {
      assert s[i..j][k] == s[i + k];
    }
  }

  /** The octets of a std::string (body.assign(text.begin(), text.end())). */
  function BytesOf(s: string): (r: seq<Byte>)
    ensures |r| == |s|
  {
    seq(|s|, i requires 0 <= i < |s| => (s[i] as int) % 256)
  }

  /** The std::string made of a byte range (std::string(ptr, len)). */
  function StringOf(b: seq<Byte>): (r: string)
    ensures |r| == |b| && IsOctets(r)
  {
    seq(|b|, i requires 0 <= i < |b| => b[i] as char)
  }

  /** Bytes -> string -> bytes is the identity. */
  lemma BytesOfStringOf(b: seq<Byte>)
    ensures BytesOf(StringOf(b)) == b
  {
  }

  /** String -> bytes -> string is the identity on octet strings, and only on them. */
  lemma StringOfBytesOf(s: string)
    ensures StringOf(BytesOf(s)) == s <==> IsOctets(s)
  {
    if IsOctets(s) {
      assert forall i :: 0 <= i < |s| ==> StringOf(BytesOf(s))[i] == s[i];
    } else {
      var i :| 0 <= i < |s| && s[i] as int >= 256;
      assert StringOf(BytesOf(s))[i] != s[i];
    }
  }

  lemma BytesOfAppend(a: string, b: string)
    ensures BytesOf(a + b) == BytesOf(a) + BytesOf(b)
  {
  }

  lemma StringOfAppend(a: seq<Byte>, b: seq<Byte>)
    ensures StringOf(a + b) == StringOf(a) + StringOf(b)
  {
  }

  /** The length-prefixed field written before every string in a body: BE32(length) then the bytes. */
  function Prefixed(x: seq<Byte>): (r: seq<Byte>)
    ensures |r| == 4 + |x| && r[4..] == x
  {
    Be32(Trunc32(|x|)) + x
  }
}

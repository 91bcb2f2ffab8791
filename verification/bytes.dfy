/** Bytes, optional values and the fixed-width integer conversions the C++ code
    performs implicitly (network-order helpers, signed casts, packed struct fields). */
module Bytes {

  type byte = x: int | 0 <= x < 256
  type Bytes = seq<byte>

  const TwoTo16: int := 0x1_0000
  const TwoTo31: int := 0x8000_0000
  const TwoTo32: int := 0x1_0000_0000

  datatype Option<+T> = None | Some(value: T)

  /** Unsigned 16-bit value in network (big-endian) order. */
  function BE16(x: nat): (b: Bytes)
    requires x < TwoTo16
    ensures |b| == 2 && (b[0] as int) * 256 + b[1] == x
  {
    [x / 256, x % 256]
  }

  /** Reads a big-endian unsigned 16-bit value, as `networkToHost16` of the first two bytes. */
  function ReadBE16(b: Bytes): (x: nat)
    requires |b| >= 2
    ensures x < TwoTo16
  {
    (b[0] as int) * 256 + b[1]
  }

  /** Unsigned 32-bit value in network (big-endian) order. */
  function BE32(x: nat): (b: Bytes)
    requires x < TwoTo32
    ensures |b| == 4
  {
    [x / 0x100_0000, (x / 0x1_0000) % 256, (x / 256) % 256, x % 256]
  }

  /** Reads a big-endian unsigned 32-bit value from the first four bytes. */
  function ReadBE32(b: Bytes): (x: nat)
    requires |b| >= 4
    ensures x < TwoTo32
  {
    (((b[0] as int) * 256 + b[1]) * 256 + b[2]) * 256 + b[3]
  }

  lemma BE32RoundTrip(x: nat)
    requires x < TwoTo32
    ensures ReadBE32(BE32(x)) == x
  {
    var b := BE32(x);
    assert (b[0] as int) * 256 + b[1] == x / 0x1_0000;
    assert ((b[0] as int) * 256 + b[1]) * 256 + b[2] == x / 256;
  }

  lemma ReadBE32Inverse(b: Bytes)
    requires |b| >= 4
    ensures BE32(ReadBE32(b)) == b[..4]
  {
    var x := ReadBE32(b);
    var hi := ((b[0] as int) * 256 + b[1]) * 256 + b[2];
    assert x == hi * 256 + b[3] as int;
    assert x % 256 == b[3] && x / 256 == hi;
    assert hi / 256 == (b[0] as int) * 256 + b[1] && hi % 256 == b[2] as int;
    assert (x / 256) / 256 == x / 0x1_0000;
    assert (x / 0x1_0000) / 256 == x / 0x100_0000;
  }

  lemma AppendNothing<T>(s: seq<T>)
    ensures s + [] == s
  {
  }

  /** Reinterprets an integer modulo 2^32 as a two's complement int32, as a C++
      `static_cast<int32_t>` or a wrapping 32-bit addition does. */
  function ToInt32(x: int): (r: int)
    ensures -TwoTo31 <= r < TwoTo31
    ensures (r - x) % TwoTo32 == 0
  {
    var m := x % TwoTo32;
    if m >= TwoTo31 then m - TwoTo32 else m
  }

  /** A value that already fits an int32 is unchanged by the reinterpretation. */
  lemma ToInt32Small(x: int)
    requires -TwoTo31 <= x < TwoTo31
    ensures ToInt32(x) == x
  {
    if x < 0 {
      assert x % TwoTo32 == x + TwoTo32;
    }
  }

  /** A value that already fits a uint32 is unchanged by the reinterpretation. */
  lemma ToUint32Small(x: int)
    requires 0 <= x < TwoTo32
    ensures ToUint32(x) == x
  {
  }

  /** A value that already fits a uint16 is unchanged by the reinterpretation. */
  lemma ToUint16Small(x: int)
    requires 0 <= x < TwoTo16
    ensures ToUint16(x) == x
  {
  }

  /** Reinterprets an integer modulo 2^16 as a two's complement int16. */
  function ToInt16(x: int): (r: int)
    ensures -0x8000 <= r < 0x8000
    ensures (r - x) % TwoTo16 == 0
  {
    var m := x % TwoTo16;
    if m >= 0x8000 then m - TwoTo16 else m
  }

  /** Reinterprets an integer modulo 2^16 as a uint16 (an implicit conversion to `uint16_t`). */
  function ToUint16(x: int): (r: nat)
    ensures r < TwoTo16
    ensures (r - x) % TwoTo16 == 0
  {
    x % TwoTo16
  }

  /** Reinterprets an integer modulo 2^32 as a uint32. */
  function ToUint32(x: int): (r: nat)
    ensures r < TwoTo32
    ensures (r - x) % TwoTo32 == 0
  {
    x % TwoTo32
  }

  /** Signed 32-bit value in network order: `Buffer::appendInt32` of an int32. */
  function Int32BE(x: int): (b: Bytes)
    requires -TwoTo31 <= x < TwoTo31
    ensures |b| == 4
  {
    BE32(ToUint32(x))
  }

  /** Signed big-endian 32-bit value of the first four bytes: `Buffer::peekInt32`. */
  function PeekInt32(b: Bytes): (x: int)
    requires |b| >= 4
    ensures -TwoTo31 <= x < TwoTo31
  {
    ToInt32(ReadBE32(b))
  }

  lemma Int32RoundTrip(x: int)
    requires -TwoTo31 <= x < TwoTo31
    ensures PeekInt32(Int32BE(x)) == x
  {
    var u := ToUint32(x);
    if x >= 0 {
      assert u == x;
    } else {
      assert x % TwoTo32 == x + TwoTo32;
      assert u == x + TwoTo32;
    }
    BE32RoundTrip(u);
    assert ReadBE32(Int32BE(x)) == u;
    assert u % TwoTo32 == u;
  }

  /** A non-negative header is exactly the encoding of its value. */
  lemma PeekInt32Inverse(b: Bytes)
    requires |b| >= 4 && PeekInt32(b) >= 0
    ensures Int32BE(PeekInt32(b)) == b[..4]
  {
    ReadBE32Inverse(b);
  }

  /** A value stored in a packed struct field of `n` bytes, in the memory order of a
      little-endian host. */
  function LittleEndian(x: nat, n: nat): (b: Bytes)
    ensures |b| == n
  {
    if n == 0 then [] else [x % 256] + LittleEndian(x / 256, n - 1)
  }

  /** The number a little-endian host reads from `b`'s bytes. */
  function ReadLittleEndian(b: Bytes): (x: nat)
  {
    if |b| == 0 then 0 else b[0] + 256 * ReadLittleEndian(b[1..])
  }

  function Pow256(n: nat): (p: nat)
    ensures p > 0
  {
    if n == 0 then 1 else 256 * Pow256(n - 1)
  }

  lemma {:induction false} LittleEndianRoundTrip(x: nat, n: nat)
    requires x < Pow256(n)
    ensures ReadLittleEndian(LittleEndian(x, n)) == x
  {
    if n > 0 {
      LittleEndianRoundTrip(x / 256, n - 1);
      assert LittleEndian(x, n)[1..] == LittleEndian(x / 256, n - 1);
    }
  }

  lemma {:induction false} ReadLittleEndianInverse(b: Bytes)
    ensures ReadLittleEndian(b) < Pow256(|b|)
    ensures LittleEndian(ReadLittleEndian(b), |b|) == b
  {
    if |b| > 0 {
      ReadLittleEndianInverse(b[1..]);
      var x := ReadLittleEndian(b);
      assert x % 256 == b[0] && x / 256 == ReadLittleEndian(b[1..]);
    }
  }

  /** The bytes of a C string built from `s` with `.c_str()`: everything before the first NUL. */
  function UpToNul(s: Bytes): (r: Bytes)
    ensures |r| <= |s| && r == s[..|r|]
    ensures 0 !in r
    ensures |r| < |s| ==> s[|r|] == 0
  {
    if |s| == 0 || s[0] == 0 then [] else [s[0]] + UpToNul(s[1..])
  }
}

/**
 * Fixed-width integer arithmetic of the .NET runtime (unchecked 32-bit
 * wrap-around, truncating division, rotation) and little-endian byte
 * layouts as `BitConverter` produces them on x86.
 */
module Binary {
  import opened Keys

  const Two32: int := 0x1_0000_0000
  const Two31: int := 0x8000_0000

  type int32 = x: int | -0x8000_0000 <= x < 0x8000_0000
  type uint32 = x: int | 0 <= x < 0x1_0000_0000
  type int64 = x: int | -0x8000_0000_0000_0000 <= x < 0x8000_0000_0000_0000

  function Pow2(n: nat): (r: nat)
    ensures r >= 1
  {
    if n == 0 then 1 else 2 * Pow2(n - 1)
  }

  /** The unchecked conversion to `int`: the low 32 bits read as two's complement. */
  function Int32(x: int): (r: int32)
    ensures (r - x) % Two32 == 0
    ensures -Two31 <= x < Two31 ==> r == x
  {
    var m := x % Two32;
    if m >= Two31 then m - Two32 else m
  }

  /** C# integer division of a by a positive b: the quotient rounds toward zero. */
  function DivTrunc(a: int, b: int): (r: int)
    requires b > 0
    ensures a >= 0 ==> r == a / b
    ensures a < 0 ==> r == -((-a) / b)
  {
    if a >= 0 then a / b else -((-a) / b)
  }

  /**
   * C#'s `(h >> 17) | (h << 15)` on a `uint`: a rotation right by 17. The
   * right shift is a floor division, the left shift a multiplication taken
   * modulo 2^32, and the two shifted values occupy disjoint bits, so their
   * `|` is their sum. The low 15 bits of the result are h's high 15 bits,
   * and its high 17 bits are h's low 17 bits.
   */
  function RotateRight17(h: uint32): (r: uint32)
    ensures r == (h / 0x2_0000 + h * 0x8000) % 0x1_0000_0000
    ensures r % 0x8000 == h / 0x2_0000 && r / 0x8000 == h % 0x2_0000
  {
    var high := h / 0x2_0000;
    var low := h % 0x2_0000;
    assert h * 0x8000 == high * 0x1_0000_0000 + low * 0x8000;
    assert low * 0x8000 <= 0x1_FFFF * 0x8000;
    high + low * 0x8000
  }

  /** On 32-bit words, the `|` of the two shifts equals the sum RotateRight17 takes. */
  lemma RotationOrIsSum(x: bv32)
    ensures (x >> 17) | (x << 15) == x / 0x2_0000 + (x % 0x2_0000) * 0x8000
  {
  }

  /** Values of the rotation: bit 0 moves to bit 15, bit 17 to bit 0 and bit 31 to bit 14. */
  lemma RotateRight17Examples()
    ensures RotateRight17(1) == 0x8000
    ensures RotateRight17(0x2_0000) == 1
    ensures RotateRight17(0x8000_0000) == 0x4000
  {
  }

  /** Bit n of a byte. */
  predicate BitAt(b: byte, n: nat)
    requires n < 8
  {
    (b as int / Pow2(n)) % 2 == 1
  }

  /** The little-endian layout of n in `width` bytes (n taken modulo 256^width). */
  function LittleEndian(n: nat, width: nat): (r: seq<byte>)
    ensures |r| == width
  {
    if width == 0 then [] else [(n % 256) as byte] + LittleEndian(n / 256, width - 1)
  }

  /** The unsigned value of little-endian bytes. */
  function FromLittleEndian(bs: seq<byte>): nat {
    if bs == [] then 0 else bs[0] as nat + 256 * FromLittleEndian(bs[1..])
  }

  function Pow256(n: nat): (r: nat)
    ensures r >= 1
  {
    if n == 0 then 1 else 256 * Pow256(n - 1)
  }

  /** Reading back the layout of a value that fits gives the value. */
  lemma {:induction false} LittleEndianRoundTrip(n: nat, width: nat)
    requires n < Pow256(width)
    ensures FromLittleEndian(LittleEndian(n, width)) == n
  {
    if width > 0 {
      LittleEndianRoundTrip(n / 256, width - 1);
      assert LittleEndian(n, width)[1..] == LittleEndian(n / 256, width - 1);
    }
  }

  /** Every byte string of length w holds a value below 256^w. */
  lemma {:induction false} FromLittleEndianBound(bs: seq<byte>)
    ensures FromLittleEndian(bs) < Pow256(|bs|)
  {
    if bs != [] {
      FromLittleEndianBound(bs[1..]);
    }
  }

  /** Writing out a value read from bytes gives the bytes back. */
  lemma {:induction false} FromLittleEndianRoundTrip(bs: seq<byte>)
    ensures LittleEndian(FromLittleEndian(bs), |bs|) == bs
  {
    if bs != [] {
      FromLittleEndianRoundTrip(bs[1..]);
      var n := FromLittleEndian(bs);
      assert n % 256 == bs[0] as nat && n / 256 == FromLittleEndian(bs[1..]);
    }
  }

  /** The little-endian value of a concatenation: the second part is the high part. */
  lemma {:induction false} FromLittleEndianAppend(a: seq<byte>, b: seq<byte>)
    ensures FromLittleEndian(a + b) == FromLittleEndian(a) + Pow256(|a|) * FromLittleEndian(b)
  {
    if a != [] {
      assert (a + b)[1..] == a[1..] + b;
      assert (a + b)[0] == a[0];
      FromLittleEndianAppend(a[1..], b);
      ShiftedSum(a[0] as nat, FromLittleEndian(a[1..]), Pow256(|a| - 1), FromLittleEndian(b));
    } else {
      assert a + b == b;
    }
  }

  /** The arithmetic step of `FromLittleEndianAppend`. */
  lemma ShiftedSum(d: nat, x: nat, p: nat, y: nat)
    ensures d + 256 * (x + p * y) == (d + 256 * x) + (256 * p) * y
  {
  }

  const Two64: int := 0x1_0000_0000_0000_0000
  const Two63: int := 0x8000_0000_0000_0000

  /** The unchecked conversion to `long`: the low 64 bits read as two's complement. */
  function Int64(x: int): (r: int64)
    ensures 0 <= x < Two63 ==> r == x
  {
    var m := x % Two64;
    if m >= Two63 then m - Two64 else m
  }

  /** n with its low a bytes shifted out. */
  function ShiftBytes(n: nat, a: nat): nat {
    if a == 0 then n else ShiftBytes(n / 256, a - 1)
  }

  lemma {:induction false} ShiftBytesPastValue(n: nat, a: nat)
    requires n < Pow256(a)
    ensures ShiftBytes(n, a) == 0
  {
    if a > 0 {
      ShiftBytesPastValue(n / 256, a - 1);
    }
  }

  /** The layout in a + b bytes is the low a bytes followed by the layout of the rest in b bytes. */
  lemma {:induction false} LittleEndianSplit(n: nat, a: nat, b: nat)
    ensures LittleEndian(n, a + b) == LittleEndian(n, a) + LittleEndian(ShiftBytes(n, a), b)
  {
    if a > 0 {
      LittleEndianSplit(n / 256, a - 1, b);
    }
  }

  /** Zero is laid out as zero bytes. */
  lemma {:induction false} LittleEndianZero(width: nat)
    ensures LittleEndian(0, width) == seq(width, _ => 0 as byte)
    ensures FromLittleEndian(seq(width, _ => 0 as byte)) == 0
  {
    if width > 0 {
      LittleEndianZero(width - 1);
      assert seq(width, _ => 0 as byte) == [0 as byte] + seq(width - 1, _ => 0 as byte);
    }
  }

  /** `BitConverter.ToInt32`: four little-endian bytes as a signed value. */
  function ToInt32(bs: seq<byte>): (r: int32)
    requires |bs| == 4
  {
    FromLittleEndianBound(bs);
    Int32(FromLittleEndian(bs))
  }
}

/** The gear rolling hash of the content-defined chunker: the fixed table,
    the per-byte update with JavaScript's 32-bit integer semantics, and the
    boundary mask test. */
module Gear {
  import opened Bytes

  const TWO_POW_32: int := 0x1_0000_0000

  /** The 32 listed entries at the head of the gear table. */
  const GEAR_HEAD: seq<int> := [
    0x3a8f13b1, 0x5c6d7e2f, 0x1d2a3b4c, 0x9f8e7d6c, 0xa1b2c3d4, 0x0f1e2d3c, 0x12345678, 0xabcdef01,
    0x23456789, 0x3456789a, 0x456789ab, 0x56789abc, 0x6789abcd, 0x789abcde, 0x89abcdef, 0x9abcdef0,
    0x0a0b0c0d, 0x1a1b1c1d, 0x2a2b2c2d, 0x3b3c3d3e, 0x4c4d4e4f, 0x5d5e5f60, 0x6e6f7071, 0x7f808182,
    0x8f909192, 0x9fa0a1a2, 0xafb0b1b2, 0xbfc0c1c2, 0xcfd0d1d2, 0xdfd1d2d3, 0xefc1c2c3, 0xffb1b2b3
  ]

  /** The gear table: the 32 listed constants, then `0x11111111 + i` for the
      remaining 224 byte values. Changing it moves every chunk boundary. */
  function GEAR(b: Byte): (g: int)
    ensures 0 <= g < TWO_POW_32
  {
    if b < 32 then GEAR_HEAD[b] else 0x11111111 + (b - 32)
  }

  function Pow2(n: nat): (r: nat)
    ensures r >= 1
  {
    if n == 0 then 1 else 2 * Pow2(n - 1)
  }

  function Max(a: int, b: int): int {
    if a >= b then a else b
  }

  /** ECMAScript ToUint32 of an integer. */
  function ToUint32(x: int): (r: nat)
    ensures r < TWO_POW_32
  {
    x % TWO_POW_32
  }

  /** ECMAScript ToInt32 of an integer. */
  function ToInt32(x: int): (r: int)
    ensures -0x8000_0000 <= r < 0x8000_0000
  {
    if x % TWO_POW_32 >= 0x8000_0000 then x % TWO_POW_32 - TWO_POW_32 else x % TWO_POW_32
  }

  /** `gearHash = ((gearHash << 1) + GEAR(b)) >>> 0`: `<<` converts its operand
      to a signed 32-bit integer and wraps, `>>> 0` reduces modulo 2^32. */
  function GearStep(h: int, b: Byte): nat {
    ToUint32(ToInt32(ToInt32(h) * 2) + GEAR(b))
  }

  lemma ToInt32Congruent(x: int)
    ensures ToInt32(x) % TWO_POW_32 == x % TWO_POW_32
  {
  }

  lemma CongruentSum(a: int, b: int, g: int)
    requires a % TWO_POW_32 == b % TWO_POW_32
    ensures (a + g) % TWO_POW_32 == (b + g) % TWO_POW_32
  {
    var j := a / TWO_POW_32 - b / TWO_POW_32;
    assert a + g == (b + g) + j * TWO_POW_32;
    ShiftByMultiple(b + g, j);
  }

  lemma CongruentDouble(a: int, b: int)
    requires a % TWO_POW_32 == b % TWO_POW_32
    ensures (2 * a) % TWO_POW_32 == (2 * b) % TWO_POW_32
  {
    var j := a / TWO_POW_32 - b / TWO_POW_32;
    assert 2 * a == 2 * b + (2 * j) * TWO_POW_32;
    ShiftByMultiple(2 * b, 2 * j);
  }

  lemma ShiftByMultiple(x: int, j: int)
    ensures (x + j * TWO_POW_32) % TWO_POW_32 == x % TWO_POW_32
  {
  }

  /** The rolling-hash update is `(2h + GEAR(b)) mod 2^32`, whatever the sign
      games of the 32-bit operators in between. */
  lemma GearStepIsMod(h: int, b: Byte)
    ensures GearStep(h, b) == (2 * h + GEAR(b)) % TWO_POW_32
  {
    var x := ToInt32(h) * 2;
    ToInt32Congruent(x);
    CongruentSum(ToInt32(x), x, GEAR(b));
    ToInt32Congruent(h);
    CongruentDouble(ToInt32(h), h);
    CongruentSum(x, 2 * h, GEAR(b));
  }

  /** `(1 << maskBits) - 1`: the shift count is taken modulo 32 and `1 << 31`
      is the negative number -2^31. */
  function Mask(maskBits: nat): int {
    ToInt32(Pow2(maskBits % 32)) - 1
  }

  /** No bit position is set in both numbers. */
  predicate NoCommonBits(x: nat, y: nat)
    decreases x
  {
    if x == 0 || y == 0 then true
    else !(x % 2 == 1 && y % 2 == 1) && NoCommonBits(x / 2, y / 2)
  }

  /** `(gearHash & mask) === 0`, with the hash already in [0, 2^32) (it is the
      result of `>>> 0`) and `pattern` the mask's 32-bit pattern
      `ToUint32(mask)`: `&` compares the two bit patterns. */
  predicate MaskTest(h: nat, pattern: nat) {
    NoCommonBits(h, pattern)
  }

  lemma Pow2Below31(s: nat)
    requires s < 31
    ensures Pow2(s) < 0x8000_0000
  {
    Pow2Monotone(s, 30);
    Pow2Of31();
  }

  lemma Pow2Of31()
    ensures Pow2(30) == 0x4000_0000 && Pow2(31) == 0x8000_0000
  {
    assert Pow2(2) == 4;
    assert Pow2(4) == 16;
    assert Pow2(6) == 64;
    assert Pow2(8) == 256;
    assert Pow2(10) == 1024;
    assert Pow2(12) == 4096;
    assert Pow2(14) == 16384;
    assert Pow2(16) == 65536;
    assert Pow2(18) == 262144;
    assert Pow2(20) == 1048576;
    assert Pow2(22) == 4194304;
    assert Pow2(24) == 16777216;
    assert Pow2(26) == 67108864;
    assert Pow2(28) == 268435456;
    assert Pow2(30) == 1073741824;
  }

  lemma {:induction false} Pow2Monotone(a: nat, b: nat)
    requires a <= b
    ensures Pow2(a) <= Pow2(b)
    decreases b
  {
    if a < b {
      Pow2Monotone(a, b - 1);
    }
  }

  /** The 32-bit pattern of the mask has exactly the low `maskBits % 32` bits set. */
  lemma MaskPattern(maskBits: nat)
    ensures ToUint32(Mask(maskBits)) == Pow2(maskBits % 32) - 1
  {
    var s := maskBits % 32;
    if s == 31 {
      Pow2Of31();
    } else {
      Pow2Below31(s);
    }
  }

  /** `h % (2p)` is zero exactly when `h` is even and `h / 2` is a multiple of `p`. */
  lemma EvenMultiple(h: nat, p: nat)
    requires p >= 1
    ensures h % (2 * p) == 0 <==> (h % 2 == 0 && (h / 2) % p == 0)
  {
    var q, r := h / 2, h % 2;
    var a, c := q / p, q % p;
    assert h == 2 * p * a + (2 * c + r);
    DivModUnique(h, 2 * p, a, 2 * c + r);
  }

  lemma DivModUnique(x: int, d: int, a: int, b: int)
    requires d > 0 && x == d * a + b && 0 <= b < d
    ensures x % d == b
  {
    var k := x / d - a;
    assert d * k == b - x % d;
  }

  lemma {:induction false} LowBits(h: nat, s: nat)
    ensures NoCommonBits(h, Pow2(s) - 1) <==> h % Pow2(s) == 0
    decreases s
  {
    if s > 0 && h != 0 {
      var half := Pow2(s - 1);
      var m := Pow2(s) - 1;
      assert m == 2 * (half - 1) + 1;
      assert m % 2 == 1 && m / 2 == half - 1;
      assert NoCommonBits(h, m) <==> h % 2 == 0 && NoCommonBits(h / 2, half - 1);
      LowBits(h / 2, s - 1);
      EvenMultiple(h, half);
    }
  }

  /** The cut test on the hash asks that its low `maskBits % 32` bits be zero. */
  lemma MaskTestIsLowBits(h: nat, maskBits: nat)
    requires h < TWO_POW_32
    ensures MaskTest(h, ToUint32(Mask(maskBits))) <==> h % Pow2(maskBits % 32) == 0
  {
    MaskPattern(maskBits);
    LowBits(h, maskBits % 32);
  }

  /** The position of the highest set bit. */
  function FloorLog2(n: nat): nat {
    if n < 2 then 0 else 1 + FloorLog2(n / 2)
  }

  /** `Math.max(1, Math.round(Math.log2(avg)))`, computed exactly: the
      nearest integer to log2(avg) is half of log2(avg * avg), rounded up
      from one half; `Math.log2(0)` is -Infinity, which the maximum lifts to 1. */
  function MaskBits(avg: nat): nat {
    if avg == 0 then 1 else Max(1, (FloorLog2(avg * avg) + 1) / 2)
  }

  lemma {:induction false} FloorLog2Bounds(n: nat)
    requires n >= 1
    ensures Pow2(FloorLog2(n)) <= n < Pow2(FloorLog2(n) + 1)
  {
    if n >= 2 {
      FloorLog2Bounds(n / 2);
    }
  }

  /** The exponent MaskBits picks is the nearest integer to log2(avg): with
      `k` that exponent (before the lift to 1), 2^(k - 1/2) <= avg < 2^(k + 1/2),
      stated on avg * avg to stay in the integers. */
  lemma MaskBitsNearest(avg: nat)
    requires avg >= 1
    ensures var k := (FloorLog2(avg * avg) + 1) / 2;
      MaskBits(avg) == Max(1, k) && Pow2(2 * k) <= 2 * (avg * avg) && avg * avg < Pow2(2 * k + 1)
  {
    var n := avg * avg;
    var l := FloorLog2(n);
    var k := (l + 1) / 2;
    FloorLog2Bounds(n);
    Pow2Monotone(2 * k, l + 1);
    Pow2Monotone(l + 1, 2 * k + 1);
  }

  lemma {:induction false} FloorLog2OfPow2(k: nat)
    ensures FloorLog2(Pow2(k)) == k
  {
    if k > 0 {
      FloorLog2OfPow2(k - 1);
    }
  }

  lemma {:induction false} Pow2Square(k: nat)
    ensures Pow2(k) * Pow2(k) == Pow2(2 * k)
  {
    if k > 0 {
      Pow2Square(k - 1);
      var p := Pow2(k - 1);
      assert Pow2(k) * Pow2(k) == 4 * (p * p);
      assert Pow2(2 * k) == 4 * Pow2(2 * (k - 1));
    }
  }

  /** For a power of two the mask has exactly its exponent bits (at least one):
      the default average chunk 65536 gives 16 bits. */
  lemma MaskBitsOfPowerOfTwo(k: nat)
    ensures MaskBits(Pow2(k)) == Max(1, k)
  {
    Pow2Square(k);
    FloorLog2OfPow2(2 * k);
  }
}

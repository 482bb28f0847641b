/**
 * Java's fixed-width integers on top of Dafny's unbounded ones: `int` and
 * `long` values, the wrap-around of their arithmetic, the truncating `/`, and
 * the bitwise `^` and `>>>` that `Long.hashCode`-style folding uses.
 */
module JavaInt {

  const TWO_32: int := 0x1_0000_0000
  const TWO_64: int := 0x1_0000_0000_0000_0000

  /** A Java `int`. */
  type Int32 = x: int | -0x8000_0000 <= x < 0x8000_0000

  /** A Java `long`. */
  type Long = x: int | -0x8000_0000_0000_0000 <= x < 0x8000_0000_0000_0000

  const LONG_MAX: Long := 0x7FFF_FFFF_FFFF_FFFF

  function Pow2(n: nat): (r: nat)
    ensures r >= 1
  {
    if n == 0 then 1 else 2 * Pow2(n - 1)
  }

  /** Two's-complement wrap-around to 32 bits: the unique `int` congruent to `x`. */
  function Wrap32(x: int): (r: Int32)
    ensures (r - x) % TWO_32 == 0
    ensures -0x8000_0000 <= x < 0x8000_0000 ==> r == x
  {
    (x + 0x8000_0000) % TWO_32 - 0x8000_0000
  }

  /** Two's-complement wrap-around to 64 bits. */
  function Wrap64(x: int): (r: Long)
    ensures (r - x) % TWO_64 == 0
    ensures -0x8000_0000_0000_0000 <= x < 0x8000_0000_0000_0000 ==> r == x
  {
    (x + 0x8000_0000_0000_0000) % TWO_64 - 0x8000_0000_0000_0000
  }

  /** Java `int` addition `a + b`. */
  function Add32(a: Int32, b: Int32): (r: Int32)
    ensures (r - (a + b)) % TWO_32 == 0
  {
    Wrap32(a + b)
  }

  /** Java `int` multiplication `a * b`. */
  function Mul32(a: Int32, b: Int32): (r: Int32)
    ensures (r - a * b) % TWO_32 == 0
  {
    Wrap32(a * b)
  }

  /** Java integer division by a positive divisor: rounds toward zero. */
  function Div(a: int, b: int): (r: int)
    requires b > 0
    ensures a >= 0 ==> 0 <= a - r * b < b
    ensures a < 0 ==> -b < a - r * b <= 0
  {
    if a >= 0 then a / b else -((-a) / b)
  }

  /** The bit pattern of a `long`, read as an unsigned number. */
  function Unsigned64(t: Long): (u: nat)
    ensures u < TWO_64
    ensures (u - t) % TWO_64 == 0
  {
    if t < 0 then t + TWO_64 else t
  }

  /** Bitwise exclusive or of the low `n` bits of `a` and `b`. */
  function Xor(a: nat, b: nat, n: nat): (r: nat)
    ensures r < Pow2(n)
  {
    if n == 0 then 0
    else (if a % 2 == b % 2 then 0 else 1) + 2 * Xor(a / 2, b / 2, n - 1)
  }

  /** `a` shifted right by `k` bits, as `>>>` does to a non-negative value. */
  function Shift(a: nat, k: nat): (r: nat)
    ensures r <= a
  {
    if k == 0 then a else Shift(a / 2, k - 1)
  }

  /** Java's `(int)(t ^ (t >>> 32))`: the 64-bit xor of a long with its upper
      half shifted down, narrowed to its low 32 bits. */
  function LongHash(t: Long): (h: Int32)
    ensures h == Wrap32(Xor(Unsigned64(t) % TWO_32, Unsigned64(t) / TWO_32, 32))
  {
    var u := Unsigned64(t);
    var lo, hi := u % TWO_32, u / TWO_32;
    // The xor splits at bit 32; the part above bit 32 is lost in the
    // narrowing, and the high word of `u` never reaches a 32-bit xor.
    Pow2Of32();
    ShiftIsDivision32(u);
    XorSplit(u, hi, 64, 32);
    Wrap32Periodic(Xor(u, hi, 32), Xor(Shift(u, 32), Shift(hi, 32), 32));
    assert u == lo + Pow2(32) * hi;
    XorIgnoresHigh(lo, hi, 32, hi);
    Wrap32(Xor(u, Shift(u, 32), 64))
  }

  // ---- lemmas ---------------------------------------------------------------

  lemma Wrap32Periodic(x: int, k: int)
    ensures Wrap32(x + k * TWO_32) == Wrap32(x)
  {
  }

  /** Wrapping an intermediate result does not change a later wrapped result. */
  lemma Wrap32Absorbs(x: int, c: int, y: int)
    ensures Wrap32(c * Wrap32(x) + y) == Wrap32(c * x + y)
  {
    var k := (x + 0x8000_0000) / TWO_32;
    assert Wrap32(x) == x - k * TWO_32;
    assert c * Wrap32(x) + y == c * x + y + (-c * k) * TWO_32;
    Wrap32Periodic(c * x + y, -c * k);
  }

  lemma Pow2Of32()
    ensures Pow2(32) == TWO_32
  {
    assert Pow2(8) == 0x100;
    assert Pow2(16) == 0x1_0000;
    assert Pow2(24) == 0x100_0000;
  }

  lemma ShiftIsDivision32(a: nat)
    ensures Shift(a, 32) == a / TWO_32
  {
    ShiftDiv(a, 32);
    Pow2Of32();
  }

  lemma {:induction false} ShiftDiv(a: nat, k: nat)
    ensures Shift(a, k) == a / Pow2(k)
  {
    if k > 0 {
      ShiftDiv(a / 2, k - 1);
      DivDiv2(a, Pow2(k - 1));
    }
  }

  /** Euclidean division is determined by quotient and remainder. */
  lemma DivUnique(x: int, d: int, q: int, m: int)
    requires d > 0 && x == d * q + m && 0 <= m < d
    ensures x / d == q
  {
    var q' := x / d;
    var m' := x % d;
    assert x == d * q' + m';
    if q' < q {
      assert d * (q - q') == m' - m;
      MulAtLeast(d, q - q');
    } else if q' > q {
      assert d * (q' - q) == m - m';
      MulAtLeast(d, q' - q);
    }
  }

  lemma MulAtLeast(d: int, k: int)
    requires d > 0 && k >= 1
    ensures d * k >= d
  {
  }

  lemma DivDiv2(a: nat, p: nat)
    requires p >= 1
    ensures a / 2 / p == a / (2 * p)
  {
    var q := a / (2 * p);
    var m := a % (2 * p);
    assert a == (2 * p) * q + m;
    assert a == 2 * (p * q + m / 2) + m % 2;
    DivUnique(a, 2, p * q + m / 2, m % 2);
    DivUnique(a / 2, p, q, m / 2);
  }

  // ---- the long fold -------------------------------------------------------

  /** The high bits of an xor are the xor of the high bits. */
  lemma {:induction false} XorSplit(a: nat, b: nat, n: nat, k: nat)
    requires k <= n
    ensures Xor(a, b, n) == Xor(a, b, k) + Pow2(k) * Xor(Shift(a, k), Shift(b, k), n - k)
  {
    if k > 0 {
      var bit := if a % 2 == b % 2 then 0 else 1;
      assert Shift(a, k) == Shift(a / 2, k - 1) && Shift(b, k) == Shift(b / 2, k - 1);
      var y := Xor(Shift(a, k), Shift(b, k), n - k);
      var low := Xor(a / 2, b / 2, k - 1);
      XorSplit(a / 2, b / 2, n - 1, k - 1);
      assert Xor(a / 2, b / 2, n - 1) == low + Pow2(k - 1) * y;
      assert Xor(a, b, n) == bit + 2 * Xor(a / 2, b / 2, n - 1);
      assert Xor(a, b, k) == bit + 2 * low;
      var p := Pow2(k - 1);
      assert Pow2(k) == 2 * p;
      DoubleProduct(p, y);
    }
  }

  lemma DoubleProduct(p: int, y: int)
    ensures 2 * (p * y) == (2 * p) * y
  {
  }

  /** Bits of `a` at position `n` or above do not reach an `n`-bit xor. */
  lemma {:induction false} XorIgnoresHigh(a: nat, b: nat, n: nat, c: nat)
    ensures Xor(a + Pow2(n) * c, b, n) == Xor(a, b, n)
  {
    if n > 0 {
      var h := Pow2(n - 1) * c;
      assert Pow2(n) * c == 2 * h;
      assert (a + 2 * h) % 2 == a % 2;
      assert (a + 2 * h) / 2 == a / 2 + h;
      XorIgnoresHigh(a / 2, b / 2, n - 1, c);
    }
  }

  lemma {:induction false} XorZero(a: nat, n: nat)
    requires a < Pow2(n)
    ensures Xor(a, 0, n) == a
  {
    if n > 0 {
      XorZero(a / 2, n - 1);
    }
  }

  lemma {:induction false} XorOnes(a: nat, n: nat)
    requires a < Pow2(n)
    ensures Xor(a, Pow2(n) - 1, n) == Pow2(n) - 1 - a
  {
    if n > 0 {
      assert (Pow2(n) - 1) / 2 == Pow2(n - 1) - 1;
      XorOnes(a / 2, n - 1);
    }
  }

  /** A long that fits in an int folds to itself when non-negative ... */
  lemma LongHashOfSmallNonNegative(t: Long)
    requires 0 <= t < 0x8000_0000
    ensures LongHash(t) == t
  {
    Pow2Of32();
    XorZero(t, 32);
  }

  /** ... and to its bitwise complement `-t - 1` when negative. */
  lemma LongHashOfSmallNegative(t: Long)
    requires -0x8000_0000 <= t < 0
    ensures LongHash(t) == -t - 1
  {
    var u := Unsigned64(t);
    assert u == (t + TWO_32) + TWO_32 * (TWO_32 - 1);
    DivUnique(u, TWO_32, TWO_32 - 1, t + TWO_32);
    assert u % TWO_32 == t + TWO_32;
    Pow2Of32();
    XorOnes(t + TWO_32, 32);
  }
}

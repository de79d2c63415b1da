/**
 * Java `int` arithmetic as the version codec uses it: the 32-bit two's
 * complement range; the bitwise `|` and `&` operators, defined on the
 * unsigned reading of the 32-bit pattern one bit at a time; and `<<`, which
 * multiplies that unsigned reading by `2^n` modulo `2^32`.
 */
module Bits {

  /** The values of a Java `int`. */
  type Int32 = x: int | -0x8000_0000 <= x < 0x8000_0000

  /** `2` to the power `k`. */
  function Pow2(k: nat): (r: nat)
    ensures r >= 1
  {
    if k == 0 then 1 else 2 * Pow2(k - 1)
  }

  /** The 32-bit pattern of a Java `int`, read as an unsigned number. */
  function Unsigned(a: Int32): (x: nat)
    ensures x < 0x1_0000_0000
    ensures x % 0x100 == a % 0x100
    ensures FromUnsigned(x) == a
  {
    if a < 0 then a + 0x1_0000_0000 else a
  }

  /** The Java `int` whose 32-bit pattern, read unsigned, is `x`. */
  function FromUnsigned(x: nat): (a: Int32)
    requires x < 0x1_0000_0000
  {
    if x < 0x8000_0000 then x else x - 0x1_0000_0000
  }

  lemma UnsignedRoundTrip(x: nat)
    requires x < 0x1_0000_0000
    ensures Unsigned(FromUnsigned(x)) == x
  {
  }

  /** Bitwise or of two unsigned numbers. */
  function OrNat(x: nat, y: nat): nat
    decreases x + y
  {
    if x == 0 then y
    else if y == 0 then x
    else 2 * OrNat(x / 2, y / 2) + (if x % 2 == 1 || y % 2 == 1 then 1 else 0)
  }

  /** Bitwise and of two unsigned numbers; it has no bit that `x` lacks. */
  function AndNat(x: nat, y: nat): (r: nat)
    ensures r <= x
    decreases x + y
  {
    if x == 0 || y == 0 then 0
    else 2 * AndNat(x / 2, y / 2) + (if x % 2 == 1 && y % 2 == 1 then 1 else 0)
  }

  lemma {:induction false} OrNatBound(x: nat, y: nat, k: nat)
    requires x < Pow2(k) && y < Pow2(k)
    ensures OrNat(x, y) < Pow2(k)
    decreases k
  {
    if x != 0 && y != 0 {
      OrNatBound(x / 2, y / 2, k - 1);
    }
  }

  /** The number held in the low `k` bits of `x`. */
  function LowBits(x: nat, k: nat): nat
  {
    if k == 0 then 0 else 2 * LowBits(x / 2, k - 1) + x % 2
  }

  /** The low `k` bits of `x` are `x % 2^k`. */
  lemma {:induction false} LowBitsMod(x: nat, k: nat)
    ensures LowBits(x, k) == x % Pow2(k)
    decreases k
  {
    if k == 0 {
      ModUnique(x, 1, x, 0);
    } else {
      var p := Pow2(k - 1);
      LowBitsMod(x / 2, k - 1);
      DivModStep(x, p);
    }
  }

  /** Or-ing a number below `2^k` into one whose low `k` bits are clear is
      addition. */
  lemma {:induction false} OrNatDisjoint(x: nat, y: nat, k: nat)
    requires x < Pow2(k) && LowBits(y, k) == 0
    ensures OrNat(x, y) == x + y
    decreases k
  {
    if x != 0 && y != 0 {
      OrNatDisjoint(x / 2, y / 2, k - 1);
    }
  }

  /** And-ing with `2^k - 1` keeps the low `k` bits. */
  lemma {:induction false} AndNatLowMask(x: nat, k: nat)
    ensures AndNat(x, Pow2(k) - 1) == LowBits(x, k)
    decreases k
  {
    if k > 0 {
      var m := Pow2(k) - 1;
      assert m / 2 == Pow2(k - 1) - 1 && m % 2 == 1;
      AndNatLowMask(x / 2, k - 1);
    }
  }

  /** A number below `2^k` is its own low `k` bits. */
  lemma {:induction false} LowBitsOfSmall(x: nat, k: nat)
    requires x < Pow2(k)
    ensures LowBits(x, k) == x
    decreases k
  {
    if k > 0 {
      LowBitsOfSmall(x / 2, k - 1);
    }
  }

  /** The mask of the bits from `k` up to `n`, built one bit at a time. */
  function HighMask(n: nat, k: nat): nat
    requires k <= n
  {
    if k == 0 then Pow2(n) - 1 else 2 * HighMask(n - 1, k - 1)
  }

  lemma {:induction false} HighMaskValue(n: nat, k: nat)
    requires k <= n
    ensures HighMask(n, k) == Pow2(n) - Pow2(k)
  {
    if k > 0 {
      HighMaskValue(n - 1, k - 1);
    }
  }

  /** Masking with the bits from `k` up to `n` clears the low `k` bits. */
  lemma {:induction false} AndNatHighMask(x: nat, n: nat, k: nat)
    requires k <= n && x < Pow2(n)
    ensures LowBits(x, k) <= x
    ensures AndNat(x, HighMask(n, k)) == x - LowBits(x, k)
  {
    if k == 0 {
      AndNatLowMask(x, n);
      LowBitsOfSmall(x, n);
    } else {
      AndNatHighMask(x / 2, n - 1, k - 1);
      AndNatDouble(x, HighMask(n - 1, k - 1));
      ShiftedDifference(x, x / 2, LowBits(x, k), LowBits(x / 2, k - 1),
                        AndNat(x, HighMask(n, k)), AndNat(x / 2, HighMask(n - 1, k - 1)));
    }
  }

  lemma ShiftedDifference(x: int, y: int, low: int, lowHalf: int, and: int, andHalf: int)
    requires x == 2 * y + x % 2 && low == 2 * lowHalf + x % 2
    requires andHalf == y - lowHalf && and == 2 * andHalf
    ensures and == x - low
  {
  }

  /** Doubling the mask shifts the conjunction up by one bit. */
  lemma AndNatDouble(x: nat, w: nat)
    ensures AndNat(x, 2 * w) == 2 * AndNat(x / 2, w)
  {
    if x != 0 && w != 0 {
      assert (2 * w) / 2 == w && (2 * w) % 2 == 0;
    }
  }

  lemma {:induction false} MulAtLeast(d: int, t: int)
    requires d > 0 && t >= 1
    ensures d * t >= d
    decreases t
  {
    if t > 1 {
      assert d * t == d * (t - 1) + d;
      MulAtLeast(d, t - 1);
    }
  }

  /** Euclidean division is determined by quotient and remainder. */
  lemma ModUnique(x: int, d: int, q: int, r: int)
    requires d > 0 && x == d * q + r && 0 <= r < d
    ensures x / d == q && x % d == r
  {
    var q', r' := x / d, x % d;
    assert x == d * q' + r';
    assert d * (q - q') == d * q - d * q';
    assert d * (q' - q) == d * q' - d * q;
    if q > q' {
      MulAtLeast(d, q - q');
    } else if q < q' {
      MulAtLeast(d, q' - q);
    }
  }

  /** How `x % 2p` splits into the low bit and the rest. */
  lemma DivModStep(x: nat, p: nat)
    requires p >= 1
    ensures x % (2 * p) == 2 * ((x / 2) % p) + x % 2
  {
    var h, b := x / 2, x % 2;
    var q, m := h / p, h % p;
    assert h == p * q + m;
    assert x == (2 * p) * q + (2 * m + b);
    ModUnique(x, 2 * p, q, 2 * m + b);
  }

  /** The powers of two the codec works with. */
  lemma Pow2Values()
    ensures Pow2(8) == 0x100 && Pow2(16) == 0x1_0000 && Pow2(24) == 0x100_0000
    ensures Pow2(32) == 0x1_0000_0000
  {
  }

  /** Java's `a | b`. */
  function Or(a: Int32, b: Int32): Int32
  {
    Pow2Values();
    OrNatBound(Unsigned(a), Unsigned(b), 32);
    FromUnsigned(OrNat(Unsigned(a), Unsigned(b)))
  }

  /** Or-ing an `int` whose unsigned reading is below `2^k` into one whose
      low `k` bits are clear adds the unsigned readings. */
  lemma OrDisjoint(a: Int32, b: Int32, k: nat)
    requires k <= 32 && Unsigned(a) < Pow2(k) && LowBits(Unsigned(b), k) == 0
    ensures Unsigned(Or(a, b)) == Unsigned(a) + Unsigned(b)
  {
    Pow2Values();
    OrNatDisjoint(Unsigned(a), Unsigned(b), k);
    OrNatBound(Unsigned(a), Unsigned(b), 32);
    UnsignedRoundTrip(Unsigned(a) + Unsigned(b));
  }

  /** Or-ing two numbers whose low `k` bits are clear leaves them clear. */
  lemma {:induction false} OrNatLowZero(x: nat, y: nat, k: nat)
    requires LowBits(x, k) == 0 && LowBits(y, k) == 0
    ensures LowBits(OrNat(x, y), k) == 0
    decreases k
  {
    if k > 0 && x != 0 && y != 0 {
      var z := OrNat(x / 2, y / 2);
      OrNatLowZero(x / 2, y / 2, k - 1);
      assert OrNat(x, y) == 2 * z;
      assert (2 * z) / 2 == z && (2 * z) % 2 == 0;
    }
  }

  /** The same for Java's `|` and the low byte. */
  lemma OrLowByteClear(a: Int32, b: Int32)
    requires Unsigned(a) % 0x100 == 0 && Unsigned(b) % 0x100 == 0
    ensures Unsigned(Or(a, b)) % 0x100 == 0
  {
    Pow2Values();
    LowBitsMod(Unsigned(a), 8);
    LowBitsMod(Unsigned(b), 8);
    OrNatLowZero(Unsigned(a), Unsigned(b), 8);
    OrNatBound(Unsigned(a), Unsigned(b), 32);
    UnsignedRoundTrip(OrNat(Unsigned(a), Unsigned(b)));
    LowBitsMod(OrNat(Unsigned(a), Unsigned(b)), 8);
  }

  /** Java's `a & b`. */
  function And(a: Int32, b: Int32): Int32
  {
    FromUnsigned(AndNat(Unsigned(a), Unsigned(b)))
  }

  /** Java's `a << n` for a shift distance below 32: high bits fall off. */
  function ShiftLeft(a: Int32, n: nat): Int32
    requires n < 32
  {
    FromUnsigned((Unsigned(a) * Pow2(n)) % 0x1_0000_0000)
  }
}

/** JavaScript's 32-bit integer operators, on mathematical integers.

    A JavaScript number that takes part in `|`, `&`, `<<` or `>>` is first reduced to a signed
    32-bit integer, and shift counts are reduced modulo 32. */
module Int32 {
  const TWO_31 := 0x8000_0000
  const TWO_32 := 0x1_0000_0000

  function Pow2(k: nat): (p: nat)
    ensures p > 0
  {
    if k == 0 then 1 else 2 * Pow2(k - 1)
  }

  function ToUint32(x: int): nat { x % TWO_32 }

  function ToInt32(x: int): int {
    var u := x % TWO_32;
    if u < TWO_31 then u else u - TWO_32
  }

  predicate IsInt32(x: int) { -TWO_31 <= x < TWO_31 }

  function OrBits(x: nat, y: nat): nat
    decreases x + y
  {
    if x == 0 && y == 0 then 0
    else (if x % 2 == 1 || y % 2 == 1 then 1 else 0) + 2 * OrBits(x / 2, y / 2)
  }

  function AndBits(x: nat, y: nat): nat
    decreases x + y
  {
    if x == 0 || y == 0 then 0
    else (if x % 2 == 1 && y % 2 == 1 then 1 else 0) + 2 * AndBits(x / 2, y / 2)
  }

  function Or(x: int, y: int): int { ToInt32(OrBits(ToUint32(x), ToUint32(y))) }

  function And(x: int, y: int): int { ToInt32(AndBits(ToUint32(x), ToUint32(y))) }

  function ShiftLeft(x: int, s: nat): int { ToInt32(ToInt32(x) * Pow2(s % 32)) }

  /** The arithmetic shift rounds toward minus infinity, as does division by a positive number here. */
  function ShiftRight(x: int, s: nat): int { ToInt32(x) / Pow2(s % 32) }

  lemma {:induction false} OrZero(x: nat)
    ensures OrBits(x, 0) == x && OrBits(0, x) == x
    decreases x
  {
    if x > 0 { OrZero(x / 2); }
  }

  /** Bits placed above everything already there are added by `|`. */
  lemma {:induction false} OrAbove(low: nat, high: nat, k: nat)
    requires low < Pow2(k)
    ensures OrBits(low, high * Pow2(k)) == low + high * Pow2(k)
  {
    if k == 0 {
      OrZero(high);
    } else {
      var h := high * Pow2(k - 1);
      assert high * Pow2(k) == 2 * h;
      OrAbove(low / 2, high, k - 1);
    }
  }

  lemma {:induction false} AndMask(x: nat, k: nat)
    ensures AndBits(x, Pow2(k) - 1) == x % Pow2(k)
    decreases k
  {
    if k > 0 {
      var p := Pow2(k - 1);
      calc {
        AndBits(x, 2 * (p - 1) + 1);
        { AndOdd(x, p - 1); }
        x % 2 + 2 * AndBits(x / 2, p - 1);
        { AndMask(x / 2, k - 1); }
        x % 2 + 2 * (x / 2 % p);
        { ModDouble(x, p); }
        x % (2 * p);
      }
    } else {
      assert Pow2(0) == 1 && x % 1 == 0;
    }
  }

  lemma AndOdd(x: nat, y: nat)
    ensures AndBits(x, 2 * y + 1) == x % 2 + 2 * AndBits(x / 2, y)
  {
    assert (2 * y + 1) / 2 == y;
  }

  /** Masking with 2^k - 1 keeps the low k bits. */
  lemma MaskLowBits(x: int, m: nat, k: nat)
    requires m == Pow2(k) - 1 && m < TWO_31
    ensures And(x, m) == ToUint32(x) % (m + 1)
  {
    AndMask(ToUint32(x), k);
    assert ToUint32(m) == m;
    assert 0 <= ToUint32(x) % (m + 1) <= m;
  }

  lemma {:induction false} AndBit(x: nat, k: nat)
    ensures AndBits(x, Pow2(k)) == x / Pow2(k) % 2 * Pow2(k)
    decreases k
  {
    if x > 0 {
      if k == 0 {
        assert AndBits(x / 2, 0) == 0;
      } else {
        AndBit(x / 2, k - 1);
        DivDouble(x, Pow2(k - 1));
        var p := Pow2(k - 1);
        var b := x / 2 / p % 2;
        assert Pow2(k) == 2 * p;
        assert x / Pow2(k) % 2 == b;
        assert b * (2 * p) == 2 * (b * p);
      }
    } else {
      assert 0 / Pow2(k) == 0 by { DivZero(Pow2(k)); }
    }
  }

  lemma DivZero(p: nat)
    requires p > 0
    ensures 0 / p == 0
  {
  }

  lemma ModDouble(x: nat, p: nat)
    requires p > 0
    ensures x % (2 * p) == x % 2 + 2 * (x / 2 % p)
  {
    var q := x / 2 / p;
    var r := x / 2 % p;
    assert x / 2 == p * q + r;
    assert x == (2 * p) * q + (x % 2 + 2 * r) by {
      assert 2 * (p * q) == (2 * p) * q;
    }
    DivModUnique(x, 2 * p, q, x % 2 + 2 * r);
  }

  lemma DivDouble(x: nat, p: nat)
    requires p > 0
    ensures x / (2 * p) == x / 2 / p
  {
    var q := x / 2 / p;
    var r := x / 2 % p;
    assert x / 2 == p * q + r;
    assert x == (2 * p) * q + (x % 2 + 2 * r) by {
      assert 2 * (p * q) == (2 * p) * q;
    }
    DivModUnique(x, 2 * p, q, x % 2 + 2 * r);
  }

  lemma DivModUnique(x: int, d: int, q: int, r: int)
    requires d > 0 && 0 <= r < d && x == d * q + r
    ensures x / d == q && x % d == r
  {
    var q', r' := x / d, x % d;
    assert d * (q' - q) == r - r';
    if q' > q {
      MulAtLeast(d, q' - q);
      assert false;
    } else if q' < q {
      MulAtLeast(d, q - q');
      assert false;
    }
  }

  lemma MulAtLeast(d: nat, n: nat)
    requires n >= 1
    ensures d * n >= d
  {
  }

  lemma ToInt32Small(x: int)
    requires IsInt32(x)
    ensures ToInt32(x) == x
  {
  }

  /** Reducing to 32 bits, signed or unsigned, loses no more than the bits above 31. */
  lemma ToUint32OfToInt32(x: int)
    ensures ToUint32(ToInt32(x)) == ToUint32(x)
  {
  }
}

/** Bitwise operators on words, as arithmetic. */
module Bits {
  import opened Bytes
  import opened Log2

  function BitOr(x: nat, y: nat): nat {
    if x == 0 then y
    else if y == 0 then x
    else (if x % 2 == 1 || y % 2 == 1 then 1 else 0) + 2 * BitOr(x / 2, y / 2)
  }

  lemma {:induction false} BitOrComm(x: nat, y: nat)
    ensures BitOr(x, y) == BitOr(y, x)
  {
    if x != 0 && y != 0 {
      BitOrComm(x / 2, y / 2);
    }
  }

  /** Fields that do not overlap add up. */
  lemma {:induction false} BitOrDisjoint(x: nat, y: nat, k: nat)
    requires x < Pow2(k)
    ensures BitOr(x, y * Pow2(k)) == x + y * Pow2(k)
    decreases k
  {
    if x != 0 && y != 0 {
      var z := y * Pow2(k - 1);
      assert y * Pow2(k) == 2 * z;
      BitOrDisjoint(x / 2, y, k - 1);
      assert (2 * z) / 2 == z && (2 * z) % 2 == 0;
      assert y * Pow2(k) != 0;
    }
  }

  lemma {:induction false} BitOrBound(x: nat, y: nat, n: nat)
    requires x < Pow2(n) && y < Pow2(n)
    ensures BitOr(x, y) < Pow2(n)
    decreases n
  {
    if x != 0 && y != 0 {
      BitOrBound(x / 2, y / 2, n - 1);
    }
  }

  /** `x << n` on 32-bit words. */
  function Shl(x: u32, n: nat): u32 {
    x as int * Pow2(n) % 0x1_0000_0000
  }

  function BitAnd(x: nat, y: nat): (r: nat)
    ensures r <= x
  {
    if x == 0 || y == 0 then 0
    else (if x % 2 == 1 && y % 2 == 1 then 1 else 0) + 2 * BitAnd(x / 2, y / 2)
  }

  lemma Halves(x: nat, m: nat)
    requires m >= 1
    ensures x % (2 * m) == 2 * (x / 2 % m) + x % 2
  {
    var h := x / 2;
    var q := h / m;
    assert h == m * q + h % m;
    var r := 2 * (h % m) + x % 2;
    assert x == 2 * m * q + r by {
      assert 2 * (m * q) == 2 * m * q;
    }
    ModIs(x, 2 * m, q, r);
  }

  lemma ModIs(x: nat, d: nat, q: nat, r: nat)
    requires d >= 1 && x == d * q + r && r < d
    ensures x % d == r && x / d == q
  {
    var q', r' := x / d, x % d;
    assert d * (q - q') == r' - r;
    if q - q' >= 1 {
      TimesMono(d, 1, q - q');
    } else if q - q' <= -1 {
      TimesMono(d, q - q', -1);
    }
  }

  lemma BitAndEven(x: nat, y: nat)
    ensures BitAnd(x, 2 * y) == 2 * BitAnd(x / 2, y)
  {
    assert 2 * y / 2 == y;
  }

  lemma BitAndOdd(x: nat, y: nat)
    ensures BitAnd(x, 2 * y + 1) == 2 * BitAnd(x / 2, y) + x % 2
  {
    assert (2 * y + 1) / 2 == y;
  }

  lemma NoBits(x: nat)
    ensures BitAnd(x, 0) == 0 && x % 1 == 0
  {
  }

  lemma {:induction false} BitAndOnes(x: nat, n: nat)
    ensures BitAnd(x, Pow2(n) - 1) == x % Pow2(n)
  {
    hide BitAnd;
    if n > 0 {
      var p := Pow2(n - 1);
      assert Pow2(n) - 1 == 2 * (p - 1) + 1;
      hide Pow2;
      BitAndOnes(x / 2, n - 1);
      BitAndOdd(x, p - 1);
      Halves(x, p);
    } else {
      NoBits(x);
    }
  }

  /** A mask of the bits from `k` up to but not including `n` keeps exactly those bits. */
  lemma {:induction false} BitAndMask(x: nat, k: nat, n: nat)
    requires k <= n
    ensures Masked(x, Pow2(k), Pow2(n))
    decreases k
  {
    hide BitAnd, Masked;
    if k == 0 {
      OnesMasked(x, n);
    } else {
      BitAndMask(x / 2, k - 1, n - 1);
      DoubledMask(x, Pow2(k - 1), Pow2(n - 1));
    }
  }

  /** Masking `x` with `high` - `low` keeps what is below `high` and not below `low`. */
  predicate Masked(x: nat, low: nat, high: nat) {
    1 <= low <= high && BitAnd(x, high - low) == x % high - x % low
  }

  lemma OnesMasked(x: nat, n: nat)
    ensures Masked(x, Pow2(0), Pow2(n))
  {
    BitAndOnes(x, n);
    hide BitAnd;
  }

  lemma DoubledMask(x: nat, low: nat, high: nat)
    requires Masked(x / 2, low, high)
    ensures Masked(x, 2 * low, 2 * high)
  {
    hide BitAnd;
    var r := BitAnd(x / 2, high - low);
    assert BitAnd(x, 2 * high - 2 * low) == 2 * r by {
      BitAndEven(x, high - low);
    }
    Halves(x, high);
    Halves(x, low);
  }
}

/** `easylog2`: a base-2 logarithm with eight fractional bits. */
module Log2 {
  import opened Bytes

  function Pow2(n: nat): (p: nat)
    ensures p >= 1
  {
    if n == 0 then 1 else 2 * Pow2(n - 1)
  }

  lemma {:induction false} Pow2Add(a: nat, b: nat)
    ensures Pow2(a + b) == Pow2(a) * Pow2(b)
  {
    if a > 0 {
      Pow2Add(a - 1, b);
      assert 2 * (Pow2(a - 1) * Pow2(b)) == (2 * Pow2(a - 1)) * Pow2(b);
    }
  }

  lemma {:induction false} Pow2Mono(a: nat, b: nat)
    requires a < b
    ensures 2 * Pow2(a) <= Pow2(b)
  {
    if b > a + 1 {
      Pow2Mono(a, b - 1);
    }
  }

  /** `n` is the integer part of the logarithm. */
  predicate IsLog(x: nat, n: nat) {
    Pow2(n) <= x < 2 * Pow2(n)
  }

  /** The integer part in bits 8 and up, and the mantissa below the leading bit scaled to eight bits, rounded down. */
  predicate IsEasyLog(x: nat, r: int) {
    && r >= 0 && IsLog(x, r / 0x100)
    && Pow2(r / 0x100) * (0x100 + r % 0x100) <= 0x100 * x < Pow2(r / 0x100) * (0x101 + r % 0x100)
  }

  lemma TimesMono(d: nat, a: int, b: int)
    requires a <= b
    ensures d * a <= d * b
  {
  }

  /** `v` is `x >> n`. */
  predicate Shifted(x: nat, n: nat, v: nat) {
    Pow2(n) * v <= x < Pow2(n) * (v + 1)
  }

  lemma ShiftOnce(x: nat, n: nat, v: nat)
    requires Shifted(x, n, v)
    ensures Shifted(x, n + 1, v / 2)
  {
    var p, h := Pow2(n), v / 2;
    assert Pow2(n + 1) == 2 * p;
    assert (2 * p) * h == p * (2 * h) && (2 * p) * (h + 1) == p * (2 * h + 2);
    TimesMono(p, 2 * h, v);
    TimesMono(p, v + 1, 2 * h + 2);
  }

  lemma ShiftBounds(x: nat, n: nat, v: nat)
    requires Shifted(x, n, v)
    ensures v == 0 ==> x < Pow2(n)
    ensures v >= 1 ==> x >= Pow2(n)
  {
    if v >= 1 {
      TimesMono(Pow2(n), 1, v);
    }
  }

  /** `f` is the mantissa of `x` scaled to eight bits, for a leading bit worth `p`. */
  predicate IsFraction(x: nat, p: nat, f: nat) {
    f < 0x100 && p * (0x100 + f) <= 0x100 * x < p * (0x101 + f)
  }

  lemma FromParts(x: nat, n: nat, f: nat)
    requires IsLog(x, n) && IsFraction(x, Pow2(n), f)
    ensures IsEasyLog(x, n * 0x100 + f)
  {
    var r := n * 0x100 + f;
    assert r / 0x100 == n && r % 0x100 == f;
  }

  /** The eight fractional bits when there are more than eight to choose from: `(x - p) / d`. */
  lemma HighFraction(x: nat, p: nat, d: nat, f: nat, t: nat)
    requires p == 0x100 * d && x < 2 * p && x == p + d * f + t && t < d
    ensures IsFraction(x, p, f)
  {
    if f >= 0x100 {
      TimesMono(d, 0x100, f);
    }
    assert p * f == 0x100 * (d * f);
    assert p * (0x100 + f) == 0x100 * p + p * f;
    assert p * (0x101 + f) == 0x100 * p + p * f + p;
  }

  /** The eight fractional bits when there are at most seven below the leading one: `y * d`. */
  lemma LowFraction(x: nat, p: nat, d: nat, y: nat)
    requires p * d == 0x100 && x == p + y && y < p
    ensures IsFraction(x, p, y * d)
  {
    TimesMono(d, y + 1, p);
    assert d * (y + 1) == y * d + d && d * p == 0x100;
    assert d >= 1;
    assert p * (y * d) == (p * d) * y;
    assert p * (0x100 + y * d) == 0x100 * p + p * (y * d);
    assert p * (0x101 + y * d) == 0x100 * p + p * (y * d) + p;
  }

  lemma Pow2Of8()
    ensures Pow2(8) == 0x100
  {
  }

  lemma HighQuotient(x: nat, p: nat, d: nat)
    requires d >= 1 && p == 0x100 * d && p <= x < 2 * p
    ensures IsFraction(x, p, (x - p) / d)
  {
    var f, t := (x - p) / d, (x - p) % d;
    hide IsFraction;
    HighFraction(x, p, d, f, t);
  }

  lemma HighLog(x: nat, n: nat)
    requires n >= 8 && IsLog(x, n)
    ensures IsEasyLog(x, n * 0x100 + (x - Pow2(n)) / Pow2(n - 8))
  {
    hide Pow2, IsFraction, IsEasyLog;
    assert Pow2(n) == 0x100 * Pow2(n - 8) by {
      Pow2Of8();
      Pow2Add(8, n - 8);
    }
    HighQuotient(x, Pow2(n), Pow2(n - 8));
    hide IsLog;
    FromParts(x, n, (x - Pow2(n)) / Pow2(n - 8));
  }

  lemma LowLog(x: nat, n: nat)
    requires n <= 8 && IsLog(x, n)
    ensures IsEasyLog(x, n * 0x100 + (x - Pow2(n)) * Pow2(8 - n))
  {
    var p, d := Pow2(n), Pow2(8 - n);
    Pow2Add(n, 8 - n);
    Pow2Of8();
    hide Pow2;
    LowFraction(x, p, d, x - p);
    FromParts(x, n, (x - p) * d);
  }

  /** `easylog2`, on 32-bit words. */
  method EasyLog2(x: u32) returns (r: int)
    ensures x == 0 ==> r == -0x100
    ensures x >= 1 ==> IsEasyLog(x, r)
  {
    var v5: nat := x / 2;
    if v5 == 0 {
      if x == 1 {
        LowLog(1, 0);
      }
      return ((x as int - 1) % 0x1_0000_0000 * 0x100 + 0x8000_0000) % 0x1_0000_0000 - 0x8000_0000;
    }
    var v1, v2 := 0, 0;
    var more := true;
    hide IsEasyLog;
    while more
      invariant Shifted(x, v2 + 1, v5) && Pow2(v2) <= x
      invariant more <==> v5 != 0
      invariant !more ==> v1 + 1 == v2
      decreases v5
    {
      ShiftBounds(x, v2 + 1, v5);
      ShiftOnce(x, v2 + 1, v5);
      v1 := v2;
      v5 := v5 / 2;
      v2 := v1 + 1;
      more := v5 != 0;
    }
    ShiftBounds(x, v2 + 1, v5);
    if v2 > 7 {
      HighLog(x, v2);
      return v2 * 0x100 + (x - Pow2(v2)) / Pow2(v1 - 7);
    }
    LowLog(x, v2);
    return v2 * 0x100 + (x - Pow2(v2)) * Pow2(8 - v2);
  }

  // ----- consequences -----

  lemma Monotone(x: nat, r: int, y: nat, s: int)
    requires IsEasyLog(x, r) && IsEasyLog(y, s) && x <= y
    ensures r <= s
  {
    var m, n := r / 0x100, s / 0x100;
    if m > n {
      Pow2Mono(n, m);
    } else if m == n {
      var p := Pow2(n);
      assert p * (0x100 + r % 0x100) < p * (0x101 + s % 0x100);
      if 0x100 + r % 0x100 >= 0x101 + s % 0x100 {
        TimesMono(p, 0x101 + s % 0x100, 0x100 + r % 0x100);
      }
    }
  }

  /** The specification leaves no choice. */
  lemma Unique(x: nat, r: int, s: int)
    requires IsEasyLog(x, r) && IsEasyLog(x, s)
    ensures r == s
  {
    Monotone(x, r, x, s);
    Monotone(x, s, x, r);
  }

  lemma FractionDoubles(x: nat, p: nat, f: nat)
    requires IsFraction(x, p, f)
    ensures IsFraction(2 * x, 2 * p, f)
  {
    assert (2 * p) * (0x100 + f) == 2 * (p * (0x100 + f));
    assert (2 * p) * (0x101 + f) == 2 * (p * (0x101 + f));
  }

  /** Doubling the argument adds exactly one. */
  lemma Doubling(x: nat, r: int, s: int)
    requires IsEasyLog(x, r) && IsEasyLog(2 * x, s)
    ensures s == r + 0x100
  {
    var n, f := r / 0x100, r % 0x100;
    var p := Pow2(n);
    assert Pow2(n + 1) == 2 * p && IsLog(2 * x, n + 1);
    FractionDoubles(x, p, f);
    FromParts(2 * x, n + 1, f);
    hide IsEasyLog;
    Unique(2 * x, (n + 1) * 0x100 + f, s);
  }

  lemma Pow2Values()
    ensures Pow2(10) == 0x400 && Pow2(21) == 0x20_0000 && Pow2(22) == 0x40_0000 && Pow2(31) == 0x8000_0000
  {
    Pow2Of8();
    Pow2Add(2, 8);
    Pow2Add(10, 10);
    Pow2Add(1, 20);
    Pow2Add(1, 21);
    Pow2Add(21, 10);
  }

  lemma Pow2Of32()
    ensures Pow2(32) == 0x1_0000_0000
  {
    Pow2Of8();
    Pow2Add(8, 8);
    Pow2Add(16, 16);
  }
}

/** `isp_win_param`: the search for a statistics window, and what it stores about it. */
module Window {
  import opened Bytes
  import opened Log2
  import Bits

  /** From this width on, the shift that stores the reciprocal would be by 32 bits or more. */
  const MAX_WIDTH := 0x3f_ffff

  /** `v7` before the search. */
  function LowLimit(dim: nat, mode: nat, sel: nat): int {
    if mode == 0 && sel == 1 then (if dim * 10 < 0x43d then 7 else dim * 10 / 0x9b)
    else if mode == 0 && sel == 0 then (if dim * 10 < 0x89d then 7 else dim * 10 / 0x13b)
    else if mode == 1 && sel == 1 then (dim - 1) / 0x16 - 1
    else if mode == 1 && sel == 0 then (dim - 1) / 0x12 - 1
    else 0
  }

  /** The odd width the search starts from. */
  function Start(p0: nat, dim: nat, limit: int): (w: int)
    requires dim >= 3 && limit >= 0
    ensures w % 2 == 1 && w >= limit
  {
    var half := (dim - 1) / 2 - 1;
    var capped := if p0 <= half then p0 else half;
    var m := if capped < limit then limit else capped;
    if m % 2 == 1 then m else if limit < m then m - 1 else m + 1
  }

  /** Widths the search accepts: the picture, less half a window, does not leave a sliver of 1 to 7. */
  predicate Good(dim: nat, w: nat)
    requires dim >= (w + 1) / 2
  {
    !(1 <= (dim - (w + 1) / 2) % (w + 1) <= 7)
  }

  /** The first acceptable odd width going down from `start`, or the odd number just below the limit. */
  predicate Chosen(dim: nat, start: nat, limit: nat, w: nat)
    requires dim >= (start + 1) / 2
  {
    && w % 2 == 1 && w <= start
    && (forall v :: w < v <= start && v % 2 == 1 ==> !Good(dim, v))
    && (if w >= limit then Good(dim, w) else w + 2 >= limit)
  }

  /** What the code needs of its input: no product or subtraction that wraps, no division by zero and no shift
      out of the word. Below a limit of 2 the search has to succeed. */
  predicate Searchable(p0: nat, dim: nat, mode: nat, sel: nat) {
    && dim >= 3 && (mode == 0 && sel <= 1 ==> dim * 10 < 0x1_0000_0000)
    && LowLimit(dim, mode, sel) >= 0
    && Start(p0, dim, LowLimit(dim, mode, sel)) < MAX_WIDTH
    && dim >= (Start(p0, dim, LowLimit(dim, mode, sel)) + 1) / 2
    && (LowLimit(dim, mode, sel) >= 2
        || exists w :: 1 <= w <= Start(p0, dim, LowLimit(dim, mode, sel)) && w % 2 == 1 && Good(dim, w))
  }

  /** The limit is a fraction of the picture: ten parts in 155 or in 315, and 7 at least, in mode 0, and one
      part in 22 or in 18, less one, in mode 1. */
  lemma LimitIs(dim: nat, mode: nat, sel: nat)
    requires dim >= 1
    ensures var l := LowLimit(dim, mode, sel);
            match (mode, sel)
            case (0, 1) => l >= 7 && (l == 7 || 155 * l <= 10 * dim) && 10 * dim < 155 * (l + 1)
            case (0, 0) => l >= 7 && (l == 7 || 315 * l <= 10 * dim) && 10 * dim < 315 * (l + 1)
            case (1, 1) => 22 * (l + 1) < dim <= 22 * (l + 2)
            case (1, 0) => 18 * (l + 1) < dim <= 18 * (l + 2)
            case _ => l == 0
  {
  }

  /** An odd width, not below the limit, that is the limit itself or both asked for and, with the one after it,
      less than half the picture. */
  predicate Candidate(p0: nat, dim: nat, limit: int, w: int) {
    w % 2 == 1 && (w == limit || (limit <= w <= p0 && 2 * (w + 1) < dim))
  }

  /** The search starts from the largest candidate, or just above the limit when there is none. */
  lemma StartIs(p0: nat, dim: nat, limit: int)
    requires dim >= 3 && limit >= 0
    ensures var w := Start(p0, dim, limit);
            if exists v :: Candidate(p0, dim, limit, v)
            then Candidate(p0, dim, limit, w) && forall v :: Candidate(p0, dim, limit, v) ==> v <= w
            else w == limit + 1
  {
    var w := Start(p0, dim, limit);
    if !Candidate(p0, dim, limit, w) {
      assert w == limit + 1;
    }
  }

  /** The picture is half a window, `k` windows and a sliver of `s`. */
  predicate Leaves(dim: nat, w: nat, k: nat, s: nat) {
    1 <= s <= 7 && s <= w && dim == (w + 1) / 2 + k * (w + 1) + s
  }

  lemma GoodExactly(dim: nat, w: nat)
    requires dim >= (w + 1) / 2
    ensures Good(dim, w) <==> !exists k: nat, s: nat :: Leaves(dim, w, k, s)
  {
    var v, d := w + 1, dim - (w + 1) / 2;
    assert d == v * (d / v) + d % v && v * (d / v) == (d / v) * v;
    if !Good(dim, w) {
      assert Leaves(dim, w, d / v, d % v);
    }
    forall k: nat, s: nat | Leaves(dim, w, k, s)
      ensures !Good(dim, w)
    {
      assert k * v == v * k;
      Bits.ModIs(d, v, k, s);
    }
  }

  lemma StartFits(p0: nat, dim: nat, mode: nat, sel: nat)
    requires dim >= 3 && LowLimit(dim, mode, sel) >= 0
    ensures var w := Start(p0, dim, LowLimit(dim, mode, sel));
            && (w + 1 <= 8 || 2 * (w + 1) <= dim)
            && (dim >= 4 ==> dim >= (w + 1) / 2)
  {
  }

  /** Dimensions of 67 and more always qualify, up to twice the largest width. */
  lemma LargeEnough(p0: nat, dim: nat, mode: nat, sel: nat)
    requires 67 <= dim <= 2 * MAX_WIDTH + 1 && mode <= 1 && sel <= 1
    ensures Searchable(p0, dim, mode, sel) && LowLimit(dim, mode, sel) >= 2
  {
    StartFits(p0, dim, mode, sel);
  }

  /** The rounded quotient of 2^(n + 10) by `v`, less one. */
  function Reciprocal(v: nat, n: nat): int
    requires v >= 1
  {
    (v / 2 + Pow2(n + 10)) / v - 1
  }

  /** The stored reciprocal is the nearest one, and needs ten bits with the top one set. */
  lemma ReciprocalIs(v: nat, n: nat)
    requires IsLog(v, n)
    ensures var r := Reciprocal(v, n) + 1;
            -(v / 2) <= r * v - Pow2(n + 10) <= v / 2 && 512 <= r <= 1024
  {
    var p, q := Pow2(n), v / 2 + Pow2(n + 10);
    Pow2Add(10, n);
    assert Pow2(10) == 1024;
    var r := q / v;
    assert q == v * r + q % v;
    assert r * v == v * r;
    assert v * (r + 1) == v * r + v;
    if r < 512 {
      TimesMono(v, r + 1, 512);
    }
    if r > 1024 {
      TimesMono(v, 1025, r);
    }
  }

  // The variables below are 32-bit words: that nothing wraps is part of what is verified.

  /** The assignments to `v7` ahead of `common` and `fallback`. */
  method Limit(v5: u32, mode: nat, sel: nat) returns (v7: u32)
    requires v5 >= 3 && (mode == 0 && sel <= 1 ==> v5 as int * 10 < 0x1_0000_0000) && LowLimit(v5, mode, sel) >= 0
    ensures v7 == LowLimit(v5, mode, sel) && v7 < 0x1000_0000
  {
    if mode == 0 && sel == 1 {
      var ten: u32 := v5 as int * 10;
      if ten < 0x43d { v7 := 7; } else { v7 := ten / 0x9b; }
    } else if mode == 0 && sel == 0 {
      var ten: u32 := v5 as int * 10;
      if ten < 0x89d { v7 := 7; } else { v7 := ten / 0x13b; }
    } else if mode == 1 && sel == 1 {
      v7 := (v5 as int - 1) / 0x16 - 1;
    } else if mode == 1 && sel == 0 {
      v7 := (v5 as int - 1) / 0x12 - 1;
    } else {
      v7 := 0;
    }
  }

  /** From `common` or `fallback` to `after_adjust`. */
  method First(p0: u32, v5: u32, v7: u32) returns (v3: u32)
    requires v5 >= 3 && v7 < 0x1000_0000
    ensures v3 == Start(p0, v5, v7)
  {
    var v6: u32 := v5 as int - 1;
    v3 := v6 / 2 - 1;
    if p0 <= v3 { v3 := p0; }
    if v3 < v7 { v3 := v7; }
    if v3 % 2 != 0 { return; }
    if v7 < v3 { v3 := v3 as int - 1; } else { v3 := v3 as int + 1; }
  }

  /** `(v2 - v1 * (v2 / v1)) - 1 < 7` on unsigned words: a zero remainder wraps and is not below 7. */
  predicate Sliver(v2: u32, v1: u32)
    requires v1 > 0
  {
    (v2 as int - v1 as int * (v2 / v1) as int - 1) % 0x1_0000_0000 < 7
  }

  lemma SliverIsBad(dim: nat, w: nat)
    requires dim >= (w + 1) / 2 && dim < 0x1_0000_0000 && w + 1 < 0x1_0000_0000
    ensures Sliver(dim - (w + 1) / 2, w + 1) <==> !Good(dim, w)
  {
    var v2, v1 := dim - (w + 1) / 2, w + 1;
    assert v2 - v1 * (v2 / v1) == v2 % v1;
  }

  /** One test of the loop at `after_adjust`, for width `w`. */
  method Rejected(v5: u32, w: u32) returns (bad: bool)
    requires w < MAX_WIDTH && v5 as int >= (w as int + 1) / 2
    ensures bad == !Good(v5, w)
  {
    var v1: u32 := w as int + 1;
    var v2: u32 := v5 as int - v1 as int / 2;
    SliverIsBad(v5, w);
    bad := Sliver(v2, v1);
  }

  /** The loop at `after_adjust`; `found` tells the fall-through from the jump to `finish`. */
  method Descend(v5: u32, start: u32, v7: u32) returns (v3: u32, found: bool)
    requires start % 2 == 1 && v7 <= start < MAX_WIDTH && v5 as int >= (start as int + 1) / 2
    requires v7 >= 2 || exists w :: 1 <= w <= start && w % 2 == 1 && Good(v5, w)
    ensures Chosen(v5, start, v7, v3) && found == (v3 >= v7)
  {
    hide Good;
    v3 := start;
    var bad := Rejected(v5, v3);
    while bad
      invariant v3 % 2 == 1 && v7 <= v3 <= start
      invariant bad == !Good(v5, v3)
      invariant forall v :: v3 < v <= start && v % 2 == 1 ==> !Good(v5, v)
      decreases v3, bad
    {
      assert v3 >= 3;
      var v4 := v3;
      v3 := v4 as int - 2;
      if v3 < v7 { return v3, false; }
      bad := Rejected(v5, v3);
    }
    return v3, true;
  }

  /** From `finish` on. */
  method Finish(a: array<u32>, o: nat)
    requires o + 5 <= a.Length && a[o] < MAX_WIDTH
    modifies a
    ensures forall k :: 0 <= k < a.Length && k != o + 1 && k != o + 3 ==> a[k] == old(a[k])
    ensures a[o + 3] >= 2 && IsLog(a[o] as int + 1, a[o + 3] - 2)
    ensures a[o + 1] as int == Reciprocal(a[o] as int + 1, a[o + 3] - 2)
  {
    var w := a[o];
    var n, r := Stored(w);
    a[o + 3] := n + 2;
    a[o + 1] := r;
  }

  method Stored(w: u32) returns (n: u32, p1: u32)
    requires w < MAX_WIDTH
    ensures n <= 21 && IsLog(w as int + 1, n) && p1 as int == Reciprocal(w as int + 1, n)
  {
    var v6: u32 := w as int + 1;
    var r := EasyLog2(v6);
    var k := r / 0x100;
    LogBound(v6, k);
    ReciprocalIs(v6, k);
    n := k;
    hide IsEasyLog, IsLog;
    var v7: u32 := v6 / 2;
    var sum: u32 := v7 as int + Pow2(n + 10);
    p1 := sum / v6 - 1;
  }

  /** A window of less than 2^22 has its reciprocal's shift within a word. */
  lemma LogBound(v: nat, n: nat)
    requires IsLog(v, n) && v <= MAX_WIDTH
    ensures n <= 21 && Pow2(n + 10) <= 0x8000_0000
  {
    Pow2Values();
    if n > 22 {
      Pow2Mono(22, n);
    } else if n < 21 {
      Pow2Mono(n + 10, 31);
    }
  }

  /** `n` windows of `w` + 1 are needed to cover the picture. */
  predicate Covers(dim: nat, w: nat, n: nat) {
    (n as int - 1) * (w + 1) < dim <= n * (w + 1)
  }

  function Count(dim: nat, w: nat): nat
    requires dim >= 1
  {
    (dim - 1) / (w + 1) + 1
  }

  lemma CountCovers(dim: nat, w: nat)
    requires dim >= 1
    ensures Covers(dim, w, Count(dim, w)) && Count(dim, w) <= dim
  {
    var q, v := (dim - 1) / (w + 1), w + 1;
    assert v * q + (dim - 1) % v == dim - 1;
    assert v * q == q * v && (q + 1) * v == q * v + v;
  }

  /** Everything up to `finish`, on locals. */
  method Search(p0: u32, v5: u32, mode: nat, sel: nat) returns (v3: u32, found: bool)
    requires Searchable(p0, v5, mode, sel)
    ensures var limit := LowLimit(v5, mode, sel);
            var start := Start(p0, v5, limit);
            v5 as int >= (start + 1) / 2 && Chosen(v5, start, limit, v3) && found == (v3 as int >= limit)
    ensures v3 < MAX_WIDTH
  {
    StartFits(p0, v5, mode, sel);
    var v7 := Limit(v5, mode, sel);
    var start := First(p0, v5, v7);
    hide LowLimit, Start;
    v3, found := Descend(v5, start, v7);
  }

  /** `isp_win_param` on the five words from `o`. */
  method IspWinParam(a: array<u32>, o: nat, mode: nat, sel: nat)
    requires o + 5 <= a.Length
    requires Searchable(a[o], a[o + 4], mode, sel)
    modifies a
    ensures forall k :: 0 <= k < a.Length && !(o <= k < o + 4) ==> a[k] == old(a[k])
    ensures var dim, limit := old(a[o + 4]), LowLimit(old(a[o + 4]), mode, sel);
            var start := Start(old(a[o]), dim, limit);
            && dim as int >= (start + 1) / 2 && Chosen(dim, start, limit, a[o])
            && (if a[o] as int >= limit then Covers(dim, a[o], a[o + 2]) else a[o + 2] == old(a[o + 2]))
    ensures a[o + 3] >= 2 && IsLog(a[o] as int + 1, a[o + 3] - 2)
    ensures a[o + 1] as int == Reciprocal(a[o] as int + 1, a[o + 3] - 2)
  {
    var v5 := a[o + 4];
    var v3, found := Search(a[o], v5, mode, sel);
    CountCovers(v5, v3);
    hide LowLimit, Start, Chosen, Reciprocal, IsLog, Count, Covers, Searchable;
    a[o] := v3;
    if found {
      var count: u32 := Count(v5, v3);
      a[o + 2] := count;
    }
    Finish(a, o);
  }

  /** The specification of the search leaves no choice. */
  lemma ChosenUnique(dim: nat, start: nat, limit: nat, v: nat, w: nat)
    requires dim >= (start + 1) / 2
    requires Chosen(dim, start, limit, v) && Chosen(dim, start, limit, w)
    ensures v == w
  {
  }

  /** The loop with its accidents: None when `v4 - 2` wraps, leaving a divisor of zero for the next test. */
  function Walk(dim: nat, w: nat, limit: nat): Option<nat>
    requires w % 2 == 1 && dim >= (w + 1) / 2
  {
    if Good(dim, w) then Some(w)
    else if w == 1 then (if limit < 2 then None else Some(1))
    else if w - 2 < limit then Some(w - 2)
    else Walk(dim, w - 2, limit)
  }

  /** The walk from `start` succeeds exactly when the limit is 2 or more or some width is acceptable,
      and then ends where `Chosen` says. */
  lemma {:induction false} WalkExactly(dim: nat, start: nat, limit: nat)
    requires start % 2 == 1 && dim >= (start + 1) / 2 && limit <= start
    ensures Walk(dim, start, limit) == None <==>
            limit < 2 && (forall w :: 1 <= w <= start && w % 2 == 1 ==> !Good(dim, w))
    ensures Walk(dim, start, limit).Some? ==> Chosen(dim, start, limit, Walk(dim, start, limit).value)
  {
    hide Good;
    if !Good(dim, start) && start > 1 && start - 2 >= limit {
      WalkExactly(dim, start - 2, limit);
    }
  }

  /** 66 does not qualify: in mode 1, from a small start, the walk steps below zero and divides by zero. */
  lemma SixtySixFails()
    ensures LowLimit(66, 1, 1) == 1 && Walk(66, Start(0, 66, 1), 1) == None && !Searchable(0, 66, 1, 1)
  {
    assert Start(0, 66, 1) == 1;
  }
}

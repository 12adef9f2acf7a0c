/** `isp_set_stat_param` and `isp_set_nr3d_drc_win`: three windows per pass, packed into registers. */
module StatWindow {
  import opened Bytes
  import opened Log2
  import opened Bits
  import opened Window

  // ----- the windows -----

  /** What the search leaves in a window's words `p`, given its first and fifth words and preset count. */
  predicate Windowed(p0: u32, dim: u32, preset: u32, mode: nat, sel: nat, p: seq<u32>)
    requires |p| == 4
  {
    && Searchable(p0, dim, mode, sel)
    && Chosen(dim, Start(p0, dim, LowLimit(dim, mode, sel)), LowLimit(dim, mode, sel), p[0])
    && p[3] >= 2 && IsLog(p[0] as int + 1, p[3] - 2)
    && p[1] as int == Reciprocal(p[0] as int + 1, p[3] - 2)
    && (if p[0] as int >= LowLimit(dim, mode, sel) then Covers(dim, p[0], p[2]) else p[2] == preset)
  }

  /** Every field fits the bits it is given. */
  predicate Fits(p: seq<u32>)
    requires |p| == 4
  {
    p[0] < 0x1_0000 && 511 <= p[1] <= 1023 && p[2] < 0x100 && p[3] < 0x40
  }

  lemma CountBound(dim: u32, mode: nat, sel: nat, w: u32, n: nat)
    requires mode <= 1 && sel <= 1 && 67 <= dim < 0x1_0000 && w as int >= LowLimit(dim, mode, sel)
    requires Covers(dim, w, n)
    ensures n <= 33
  {
    var d := w as int + 1;
    assert (n as int - 1) * d == d * (n as int - 1);
    if n >= 34 {
      TimesMono(d, 33, n as int - 1);
    }
  }

  lemma WindowedFits(p0: u32, dim: u32, preset: u32, mode: nat, sel: nat, p: seq<u32>)
    requires |p| == 4 && mode <= 1 && sel <= 1 && 67 <= dim < 0x1_0000 && preset < 0x100
    requires Windowed(p0, dim, preset, mode, sel, p)
    ensures Fits(p)
  {
    StartFits(p0, dim, mode, sel);
    ReciprocalIs(p[0] as int + 1, p[3] - 2);
    LogBound(p[0] as int + 1, p[3] - 2);
    if p[0] as int >= LowLimit(dim, mode, sel) {
      CountBound(dim, mode, sel, p[0], p[2]);
    }
    hide LowLimit, Start, Chosen, Reciprocal, IsLog, Covers, Searchable;
  }

  /** What a pass starts from: the divisors and preset counts for rows and columns, and the third window. */
  datatype Preset = Preset(rows: u32, rowCount: u32, columns: u32, columnCount: u32, p0: u32, count: u32, dim: u32)

  /** `a[20] & 0xff` */
  function Mode(a: seq<u32>): nat
    requires |a| == 21
  {
    a[20] as int % 0x100
  }

  /** One less, and no zero: the divisor of a mode without one of its own. */
  function Divisor(count: u32): (d: u32)
    ensures d >= 1
  {
    var less := (count as int - 1) % 0x1_0000_0000;
    if less == 0 then 1 else less
  }

  /** Constants in modes 0 and 1, and what is in the array otherwise. */
  function Presets(a: seq<u32>): (s: Preset)
    requires |a| == 21
    ensures s.rows >= 1 && s.columns >= 1
  {
    if Mode(a) == 0 then Preset(0xd, 0xe, 0x17, 0x18, 0xcb, 6, 0x400)
    else if Mode(a) == 1 then Preset(8, 9, 0xf, 0x10, 0x6da, 8, 0x3000)
    else Preset(Divisor(a[2]), a[2], Divisor(a[8]), a[8], a[12], a[14], a[16])
  }

  /** `(x - 1u) / d - 1` */
  function Ahead(x: u32, d: u32): u32
    requires d >= 1
  {
    ((x as int - 1) % 0x1_0000_0000 / d as int - 1) % 0x1_0000_0000
  }

  /** The presets at their values. */
  lemma PresetsAre(a: seq<u32>)
    requires |a| == 21
    ensures a[20] % 256 == 0 ==> Presets(a) == Preset(13, 14, 23, 24, 203, 6, 1024)
    ensures a[20] % 256 == 1 ==> Presets(a) == Preset(8, 9, 15, 16, 1754, 8, 12288)
    ensures a[20] % 256 > 1 ==>
              var s := Presets(a);
              && s.rowCount == a[2] && s.columnCount == a[8] && s.p0 == a[12] && s.count == a[14] && s.dim == a[16]
              && (a[2] > 1 ==> s.rows as int + 1 == a[2] as int) && (a[2] == 1 ==> s.rows == 1)
              && (a[8] > 1 ==> s.columns as int + 1 == a[8] as int) && (a[8] == 1 ==> s.columns == 1)
  {
  }

  /** The width asked for is one less than the picture's share, and all ones when the share is nothing. */
  lemma AheadIs(x: u32, d: u32)
    requires x >= 1 && d >= 1
    ensures var w := Ahead(x, d) as int;
            if x > d then d as int * (w + 1) < x as int <= d as int * (w + 2) else w == 0xffff_ffff
  {
    Quotient(x as int - 1, d);
  }

  lemma Quotient(y: nat, k: nat)
    requires k >= 1
    ensures k * (y / k) <= y < k * (y / k + 1) && (y < k <==> y / k == 0) && y / k <= y
  {
    var q, r := y / k, y % k;
    assert y == k * q + r;
    if q >= 1 {
      TimesMono(k, 1, q);
    }
  }

  /** The three searches of a pass do not wrap. */
  predicate Ready(a: seq<u32>)
    requires |a| == 21
  {
    var s := Presets(a);
    && Searchable(Ahead(a[18], s.rows), a[18], Mode(a), 0)
    && Searchable(Ahead(a[19], s.columns), a[19], Mode(a), 0)
    && Searchable(s.p0, s.dim, Mode(a), 1)
  }

  /** `b` holds the three windows of a pass over the picture in `a`. */
  predicate Passed(a: seq<u32>, b: seq<u32>)
    requires |a| == |b| == 21
  {
    var s := Presets(a);
    && Windowed(Ahead(a[18], s.rows), a[18], s.rowCount, Mode(a), 0, b[0..4])
    && Windowed(Ahead(a[19], s.columns), a[19], s.columnCount, Mode(a), 0, b[6..10])
    && Windowed(s.p0, s.dim, s.count, Mode(a), 1, b[12..16])
  }

  /** One window, with the words before and after the search. */
  method SetWindow(a: array<u32>, o: nat, mode: nat, sel: nat, ghost preset: u32)
    requires o + 5 <= a.Length && Searchable(a[o], a[o + 4], mode, sel) && a[o + 2] == preset
    modifies a
    ensures forall k :: 0 <= k < a.Length && !(o <= k < o + 4) ==> a[k] == old(a[k])
    ensures Windowed(old(a[o]), old(a[o + 4]), preset, mode, sel, a[o..o + 4])
  {
    hide Searchable, LowLimit, Start, Chosen, Reciprocal, IsLog, Covers;
    IspWinParam(a, o, mode, sel);
  }

  /** The branches on the mode. */
  method ModePresets(a: array<u32>, mode: nat) returns (presetA: u32, presetB: u32)
    requires a.Length == 21 && mode == Mode(a[..])
    modifies a
    ensures var s := Presets(old(a[..]));
            && a[2] == s.rowCount && a[8] == s.columnCount && a[12] == s.p0 && a[14] == s.count && a[16] == s.dim
            && presetA == s.rows && presetB == s.columns
    ensures forall k :: 18 <= k < 21 ==> a[k] == old(a[k])
  {
    if mode == 0 {
      a[2], a[8], a[14], a[16], a[12] := 0xe, 0x18, 6, 0x400, 0xcb;
      presetA, presetB := 0xd, 0x17;
    } else if mode == 1 {
      a[2], a[8], a[14], a[16], a[12] := 9, 0x10, 8, 0x3000, 0x6da;
      presetA, presetB := 8, 0xf;
    } else {
      presetA := (a[2] as int - 1) % 0x1_0000_0000;
      presetB := (a[8] as int - 1) % 0x1_0000_0000;
      if presetA == 0 { presetA := 1; }
      if presetB == 0 { presetB := 1; }
    }
  }

  /** The assignments of `isp_set_stat_param` ahead of the searches. */
  method SetPresets(a: array<u32>, mode: nat)
    requires a.Length == 21 && mode == Mode(a[..])
    modifies a
    ensures var s := Presets(old(a[..]));
            && a[0] == Ahead(a[18], s.rows) && a[2] == s.rowCount && a[4] == a[18]
            && a[6] == Ahead(a[19], s.columns) && a[8] == s.columnCount && a[10] == a[19]
            && a[12] == s.p0 && a[14] == s.count && a[16] == s.dim
    ensures a[11] == 0 && a[17] == 1
    ensures forall k :: 18 <= k < 21 ==> a[k] == old(a[k])
  {
    hide Presets, Mode, Ahead;
    var presetA, presetB := ModePresets(a, mode);
    a[4] := a[18];
    a[10] := a[19];
    a[17] := 1;
    a[6] := Ahead(a[19], presetB);
    a[0] := Ahead(a[18], presetA);
    a[5] := 0;
    a[11] := 0;
  }

  /** The three searches. */
  method SetWindows(a: array<u32>, mode: nat)
    requires a.Length == 21 && a[11] == 0 && a[17] == 1
    requires Searchable(a[0], a[4], mode, 0) && Searchable(a[6], a[10], mode, 0) && Searchable(a[12], a[16], mode, 1)
    modifies a
    ensures Windowed(old(a[0]), old(a[4]), old(a[2]), mode, 0, a[0..4])
    ensures Windowed(old(a[6]), old(a[10]), old(a[8]), mode, 0, a[6..10])
    ensures Windowed(old(a[12]), old(a[16]), old(a[14]), mode, 1, a[12..16])
    ensures forall k :: 18 <= k < 21 ==> a[k] == old(a[k])
  {
    hide Windowed, Searchable;
    SetWindow(a, 0, mode, 0, a[2]);
    ghost var rows := a[0..4];
    SetWindow(a, 6, mode, a[11], a[8]);
    assert a[0..4] == rows;
    ghost var columns := a[6..10];
    SetWindow(a, 12, mode, a[17], a[14]);
    assert a[0..4] == rows && a[6..10] == columns;
  }

  /** `isp_set_stat_param`, in any mode. */
  method IspSetStatParam(a: array<u32>)
    requires a.Length == 21 && Ready(a[..])
    modifies a
    ensures Passed(old(a[..]), a[..])
    ensures forall k :: 18 <= k < 21 ==> a[k] == old(a[k])
  {
    hide Windowed, Searchable, Presets, Ahead;
    var mode := a[20] as int % 0x100;
    SetPresets(a, mode);
    SetWindows(a, mode);
    ghost var t := a[..];
    assert t[0..4] == a[0..4] && t[6..10] == a[6..10] && t[12..16] == a[12..16];
  }

  // ----- registers -----

  function PackCounts(a: seq<u32>): nat
    requires |a| == 21
  {
    BitOr(BitOr(Shl(a[14], 16), Shl(a[8], 8)), a[2])
  }

  function PackWidths(a: seq<u32>): nat
    requires |a| == 21
  {
    BitOr(a[0], Shl(a[6], 16))
  }

  function PackScales(a: seq<u32>): nat
    requires |a| == 21
  {
    BitOr(BitOr(BitOr(Shl(a[7], 16), Shl(a[3], 10)), a[1]), Shl(a[9], 26))
  }

  function PackThird(a: seq<u32>): nat
    requires |a| == 21
  {
    BitOr(a[13], Shl(a[15], 10))
  }

  /** The 21 words are within the slots the registers give them. */
  predicate Packable(a: seq<u32>) {
    |a| == 21 && Fits(a[0..4]) && Fits(a[6..10]) && Fits(a[12..16])
  }

  lemma Powers()
    ensures Pow2(0) == 1 && Pow2(6) == 0x40 && Pow2(8) == 0x100 && Pow2(10) == 0x400 && Pow2(16) == 0x1_0000 && Pow2(26) == 0x400_0000
  {
    Pow2Of8();
    Pow2Add(8, 8);
    Pow2Values();
    Pow2Add(10, 16);
  }

  lemma ShlIs(x: u32, n: nat)
    requires x as int * Pow2(n) < 0x1_0000_0000
    ensures Shl(x, n) as int == x as int * Pow2(n)
  {
  }

  lemma PackedCounts(a: seq<u32>)
    requires Packable(a)
    ensures PackCounts(a) == a[14] as int * 0x1_0000 + a[8] as int * 0x100 + a[2] as int
  {
    Powers();
    ShlIs(a[14], 16);
    ShlIs(a[8], 8);
    var low, mid := a[2] as int, a[8] as int * 0x100;
    BitOrComm(Shl(a[14], 16), mid);
    BitOrDisjoint(mid, a[14], 16);
    BitOrComm(a[14] as int * 0x1_0000 + mid, low);
    BitOrDisjoint(low, a[14] as int * 0x100 + a[8] as int, 8);
    assert (a[14] as int * 0x100 + a[8] as int) * 0x100 == a[14] as int * 0x1_0000 + mid;
  }

  lemma PackedWidths(a: seq<u32>)
    requires Packable(a)
    ensures PackWidths(a) == a[6] as int * 0x1_0000 + a[0] as int
  {
    Powers();
    ShlIs(a[6], 16);
    BitOrDisjoint(a[0], a[6], 16);
  }

  lemma PackedScales(a: seq<u32>)
    requires Packable(a)
    ensures PackScales(a) == a[9] as int * 0x400_0000 + a[7] as int * 0x1_0000 + a[3] as int * 0x400 + a[1] as int
  {
    Powers();
    ShlIs(a[7], 16);
    ShlIs(a[3], 10);
    ShlIs(a[9], 26);
    var log := a[3] as int * 0x400;
    BitOrComm(Shl(a[7], 16), log);
    BitOrDisjoint(log, a[7], 16);
    BitOrComm(a[7] as int * 0x1_0000 + log, a[1]);
    BitOrDisjoint(a[1], a[7] as int * 0x40 + a[3] as int, 10);
    assert (a[7] as int * 0x40 + a[3] as int) * 0x400 == a[7] as int * 0x1_0000 + log;
    BitOrDisjoint(a[7] as int * 0x1_0000 + log + a[1] as int, a[9], 26);
  }

  lemma PackedThird(a: seq<u32>)
    requires Packable(a)
    ensures PackThird(a) == a[15] as int * 0x400 + a[13] as int
  {
    Powers();
    ShlIs(a[15], 10);
    BitOrDisjoint(a[13], a[15], 10);
  }

  /** `bits` bits of a register from bit `shift` up. */
  function Field(word: u32, shift: nat, bits: nat): nat {
    word as int / Pow2(shift) % Pow2(bits)
  }

  /** Five registers from `i`, and copies of the first three from `j`, hold every window word of `a`. */
  predicate Recoverable(R: seq<u32>, i: nat, j: nat, a: seq<u32>)
    requires |a| == 21 && i + 5 <= |R| && j + 3 <= |R|
  {
    && Field(R[i], 0, 8) == a[2] as int && Field(R[i], 8, 8) == a[8] as int && Field(R[i], 16, 16) == a[14] as int
    && Field(R[i + 1], 0, 16) == a[0] as int && Field(R[i + 1], 16, 16) == a[6] as int
    && R[i + 2] == a[12]
    && Field(R[i + 3], 0, 10) == a[1] as int && Field(R[i + 3], 10, 6) == a[3] as int
    && Field(R[i + 3], 16, 10) == a[7] as int && Field(R[i + 3], 26, 6) == a[9] as int
    && Field(R[i + 4], 0, 10) == a[13] as int && Field(R[i + 4], 10, 6) == a[15] as int
    && R[j] == R[i] && R[j + 1] == R[i + 1] && R[j + 2] == R[i + 2]
  }

  lemma Unpack(a: seq<u32>)
    requires Packable(a)
    ensures var x := a[14] as int * 0x1_0000 + a[8] as int * 0x100 + a[2] as int;
            x / 1 % 0x100 == a[2] as int && x / 0x100 % 0x100 == a[8] as int && x / 0x1_0000 % 0x1_0000 == a[14] as int
    ensures var y := a[6] as int * 0x1_0000 + a[0] as int;
            y / 1 % 0x1_0000 == a[0] as int && y / 0x1_0000 % 0x1_0000 == a[6] as int
    ensures var v := a[15] as int * 0x400 + a[13] as int;
            v / 1 % 0x400 == a[13] as int && v / 0x400 % 0x40 == a[15] as int
  {
    TwoFields(a[14] as int * 0x100 + a[8] as int, a[2], 0x100);
    TwoFields(a[14], a[8] as int * 0x100 + a[2] as int, 0x1_0000);
    TwoFields(a[14], a[8], 0x100);
    TwoFields(a[6], a[0], 0x1_0000);
    TwoFields(a[15], a[13], 0x400);
  }

  /** A low field and what is above it. */
  lemma TwoFields(high: nat, low: nat, p: nat)
    requires low < p
    ensures (high * p + low) % p == low && (high * p + low) / p == high
  {
    assert high * p == p * high;
    ModIs(high * p + low, p, high, low);
  }

  lemma UnpackScales(a: seq<u32>)
    requires Packable(a)
    ensures var z := a[9] as int * 0x400_0000 + a[7] as int * 0x1_0000 + a[3] as int * 0x400 + a[1] as int;
            && z < 0x1_0000_0000
            && z / 1 % 0x400 == a[1] as int && z / 0x400 % 0x40 == a[3] as int
            && z / 0x1_0000 % 0x400 == a[7] as int && z / 0x400_0000 % 0x40 == a[9] as int
  {
    var z := a[9] as int * 0x400_0000 + a[7] as int * 0x1_0000 + a[3] as int * 0x400 + a[1] as int;
    TwoFields(a[9] as int * 0x1_0000 + a[7] as int * 0x40 + a[3] as int, a[1], 0x400);
    TwoFields(a[9] as int * 0x400 + a[7] as int, a[3], 0x40);
    TwoFields(a[9] as int * 0x400 + a[7] as int, a[3] as int * 0x400 + a[1] as int, 0x1_0000);
    TwoFields(a[9], a[7], 0x400);
    TwoFields(a[9], a[7] as int * 0x1_0000 + a[3] as int * 0x400 + a[1] as int, 0x400_0000);
    assert z / 1 == z;
  }

  /** The values `isp_set_nr3d_drc_win` stores after a pass. */
  predicate Stored8(R: seq<u32>, i: nat, j: nat, a: seq<u32>)
    requires |a| == 21 && i + 5 <= |R| && j + 3 <= |R|
  {
    && R[i] as int == PackCounts(a) && R[i + 1] as int == PackWidths(a) && R[i + 2] == a[12]
    && R[i + 3] as int == PackScales(a) && R[i + 4] as int == PackThird(a)
    && R[j] == R[i] && R[j + 1] == R[i + 1] && R[j + 2] == R[i + 2]
  }

  lemma PackableMeans(a: seq<u32>)
    requires Packable(a)
    ensures |a| == 21
  {
  }

  lemma StoredRecoverable(R: seq<u32>, i: nat, j: nat, a: seq<u32>)
    requires Packable(a) && i + 5 <= |R| && j + 3 <= |R| && Stored8(R, i, j, a)
    ensures Recoverable(R, i, j, a)
  {
    hide PackCounts, PackWidths, PackScales, PackThird, Packable, Pow2;
    PackableMeans(a);
    PackedCounts(a);
    PackedWidths(a);
    PackedScales(a);
    PackedThird(a);
    Unpack(a);
    UnpackScales(a);
    Powers();
  }

  lemma ShlWord(x: u32, n: nat, y: nat)
    requires y < Pow2(32)
    ensures Shl(x, n) as int < Pow2(32) && BitOr(Shl(x, n), y) < Pow2(32) && BitOr(y, Shl(x, n)) < Pow2(32)
  {
    Pow2Of32();
    hide BitOr, Pow2;
    BitOrBound(Shl(x, n), y, 32);
    BitOrBound(y, Shl(x, n), 32);
  }

  /** Or-ed words are words, whatever does not fit. */
  lemma PacksAreWords(a: seq<u32>)
    requires |a| == 21
    ensures PackCounts(a) < 0x1_0000_0000 && PackWidths(a) < 0x1_0000_0000
    ensures PackScales(a) < 0x1_0000_0000 && PackThird(a) < 0x1_0000_0000
  {
    Pow2Of32();
    hide BitOr, Shl, Pow2;
    ShlWord(a[8], 8, 0);
    ShlWord(a[14], 16, Shl(a[8], 8));
    BitOrBound(BitOr(Shl(a[14], 16), Shl(a[8], 8)), a[2], 32);
    ShlWord(a[6], 16, a[0]);
    ShlWord(a[3], 10, 0);
    ShlWord(a[7], 16, Shl(a[3], 10));
    BitOrBound(BitOr(Shl(a[7], 16), Shl(a[3], 10)), a[1], 32);
    ShlWord(a[9], 26, BitOr(BitOr(Shl(a[7], 16), Shl(a[3], 10)), a[1]));
    ShlWord(a[15], 10, a[13]);
  }

  /** The register writes after one pass of `isp_set_stat_param`. */
  method WritePass(R: array<u32>, i: nat, j: nat, a: seq<u32>)
    requires |a| == 21 && i + 5 <= j && j + 3 <= R.Length
    modifies R
    ensures Stored8(R[..], i, j, a)
    ensures forall k :: 0 <= k < R.Length && !(i <= k < i + 5) && !(j <= k < j + 3) ==> R[k] == old(R[k])
  {
    hide PackCounts, PackWidths, PackScales, PackThird;
    PacksAreWords(a);
    R[i] := PackCounts(a);
    R[i + 1] := PackWidths(a);
    R[i + 2] := a[12];
    R[i + 3] := PackScales(a);
    R[i + 4] := PackThird(a);
    R[j] := PackCounts(a);
    R[j + 1] := PackWidths(a);
    R[j + 2] := a[12];
  }

  /** Pictures whose sides are words of 16 bits, and 67 at least. */
  predicate Ordinary(a: seq<u32>)
    requires |a| == 21
  {
    Mode(a) <= 1 && 67 <= a[18] < 0x1_0000 && 67 <= a[19] < 0x1_0000
  }

  /** They never make a search wrap. */
  lemma OrdinaryReady(a: seq<u32>)
    requires |a| == 21 && Ordinary(a)
    ensures Ready(a)
  {
    hide Searchable, Ahead;
    var s := Presets(a);
    LargeEnough(Ahead(a[18], s.rows), a[18], Mode(a), 0);
    LargeEnough(Ahead(a[19], s.columns), a[19], Mode(a), 0);
    LargeEnough(s.p0, s.dim, Mode(a), 1);
  }

  /** And their windows fit the registers. */
  lemma PassedPackable(a: seq<u32>, b: seq<u32>)
    requires |a| == |b| == 21 && Ordinary(a) && Passed(a, b)
    ensures Packable(b)
  {
    hide Windowed, Fits, Ahead;
    var s := Presets(a);
    WindowedFits(Ahead(a[18], s.rows), a[18], s.rowCount, Mode(a), 0, b[0..4]);
    WindowedFits(Ahead(a[19], s.columns), a[19], s.columnCount, Mode(a), 0, b[6..10]);
    WindowedFits(s.p0, s.dim, s.count, Mode(a), 1, b[12..16]);
  }

  /** Registers written by a pass whose blocks begin at `i` and `j`. */
  predicate Written(k: int, i: nat, j: nat) {
    i <= k < i + 5 || j <= k < j + 3
  }

  /** One pass: the windows, then their registers. */
  method OnePass(R: array<u32>, a: array<u32>, i: nat, j: nat) returns (pass: seq<u32>)
    requires R != a && a.Length == 21 && Ready(a[..]) && i + 5 <= j && j + 3 <= R.Length
    modifies R, a
    ensures |pass| == 21 && Passed(old(a[..]), pass) && Stored8(R[..], i, j, pass)
    ensures forall k :: 18 <= k < 21 ==> a[k] == old(a[k])
    ensures forall k | 0 <= k < R.Length && !Written(k, i, j) :: R[k] == old(R[k])
  {
    hide Passed, Ready, Stored8;
    IspSetStatParam(a);
    pass := a[..];
    WritePass(R, i, j, pass);
  }

  lemma StillStored(R: seq<u32>, S: seq<u32>, i: nat, j: nat, a: seq<u32>)
    requires |a| == 21 && i + 5 <= |R| && j + 3 <= |R| && |S| == |R|
    requires Stored8(R, i, j, a)
    requires (forall k :: i <= k < i + 5 ==> S[k] == R[k]) && (forall k :: j <= k < j + 3 ==> S[k] == R[k])
    ensures Stored8(S, i, j, a)
  {
  }

  /** What a pass in a mode of its own depends on. */
  lemma SamePass(a: seq<u32>, b: seq<u32>, c: seq<u32>)
    requires |a| == |b| == |c| == 21 && Mode(a) <= 1 && Mode(b) == Mode(a) && a[18] == b[18] && a[19] == b[19]
    ensures (Ready(a) <==> Ready(b)) && (Passed(a, c) <==> Passed(b, c))
  {
    hide Windowed, Searchable, Ahead;
  }

  /** The array a pass in mode `mode` over a picture starts from, as far as it matters. */
  function Picture(height: u32, width: u32, mode: u32): (a: seq<u32>)
    ensures |a| == 21 && a[18] == height && a[19] == width && a[20] == mode
  {
    seq(18, _ => 0) + [height, width, mode]
  }

  /** The second pass leaves the registers of the first alone. */
  method SecondPass(R: array<u32>, a: array<u32>, ghost first: seq<u32>) returns (pass: seq<u32>)
    requires R != a && a.Length == 21 && |first| == 21 && R.Length >= 0x640 / 4
    requires Ready(Picture(a[18], a[19], 1)) && Stored8(R[..], FIRST, FIRST_COPY, first)
    modifies R, a
    ensures |pass| == 21 && Passed(Picture(old(a[18]), old(a[19]), 1), pass)
    ensures Stored8(R[..], FIRST, FIRST_COPY, first) && Stored8(R[..], SECOND, SECOND_COPY, pass)
    ensures forall k | 0 <= k < R.Length && !Written(k, SECOND, SECOND_COPY) :: R[k] == old(R[k])
  {
    hide Passed, Stored8, Ready, Picture;
    ghost var kept := R[..];
    ghost var picture := Picture(a[18], a[19], 1);
    a[20] := 1;
    SamePass(picture, a[..], a[..]);
    ghost var before := a[..];
    pass := OnePass(R, a, SECOND, SECOND_COPY);
    SamePass(picture, before, pass);
    StillStored(kept, R[..], FIRST, FIRST_COPY, first);
  }

  const FIRST := 0x2ac / 4
  const FIRST_COPY := 0x2d0 / 4
  const SECOND := 0x604 / 4
  const SECOND_COPY := 0x624 / 4

  /** `isp_set_nr3d_drc_win`: the sixteen registers hold the packed windows of both passes, no other register
      changes, and of an ordinary picture every window word can be read back. */
  method IspSetNr3dDrcWin(R: array<u32>, width: u32, height: u32) returns (pass0: seq<u32>, pass1: seq<u32>)
    requires R.Length >= 0x640 / 4 && Ready(Picture(height, width, 0)) && Ready(Picture(height, width, 1))
    modifies R
    ensures |pass0| == |pass1| == 21 && Passed(Picture(height, width, 0), pass0) && Passed(Picture(height, width, 1), pass1)
    ensures Stored8(R[..], 0x2ac / 4, 0x2d0 / 4, pass0) && Stored8(R[..], 0x604 / 4, 0x624 / 4, pass1)
    ensures Ordinary(Picture(height, width, 0)) ==>
              Recoverable(R[..], 0x2ac / 4, 0x2d0 / 4, pass0) && Recoverable(R[..], 0x604 / 4, 0x624 / 4, pass1)
    ensures forall k | 0 <= k < R.Length && !Written(k, FIRST, FIRST_COPY) && !Written(k, SECOND, SECOND_COPY) ::
      R[k] == old(R[k])
  {
    hide Passed, Recoverable, Packable, Ready, Stored8;
    pass0, pass1 := BothPasses(R, width, height);
    OrdinaryRecoverable(R[..], height, width, 0, FIRST, FIRST_COPY, pass0);
    OrdinaryRecoverable(R[..], height, width, 1, SECOND, SECOND_COPY, pass1);
  }

  lemma OrdinaryRecoverable(R: seq<u32>, height: u32, width: u32, mode: u32, i: nat, j: nat, pass: seq<u32>)
    requires mode <= 1 && |pass| == 21 && i + 5 <= |R| && j + 3 <= |R|
    requires Passed(Picture(height, width, mode), pass) && Stored8(R, i, j, pass)
    ensures Ordinary(Picture(height, width, 0)) ==> Recoverable(R, i, j, pass)
  {
    hide Passed, Recoverable, Stored8, Picture, Packable;
    if Ordinary(Picture(height, width, 0)) {
      PassedPackable(Picture(height, width, mode), pass);
      StoredRecoverable(R, i, j, pass);
    }
  }

  /** The two passes one after the other. */
  method BothPasses(R: array<u32>, width: u32, height: u32) returns (pass0: seq<u32>, pass1: seq<u32>)
    requires R.Length >= 0x640 / 4 && Ready(Picture(height, width, 0)) && Ready(Picture(height, width, 1))
    modifies R
    ensures |pass0| == |pass1| == 21 && Passed(Picture(height, width, 0), pass0) && Passed(Picture(height, width, 1), pass1)
    ensures Stored8(R[..], FIRST, FIRST_COPY, pass0) && Stored8(R[..], SECOND, SECOND_COPY, pass1)
    ensures forall k | 0 <= k < R.Length && !Written(k, FIRST, FIRST_COPY) && !Written(k, SECOND, SECOND_COPY) ::
      R[k] == old(R[k])
  {
    hide Passed, Ready, Stored8, Picture;
    var a := new u32[21](_ => 0);
    a[18] := height;
    a[19] := width;
    SamePass(Picture(height, width, 0), a[..], a[..]);
    ghost var before := a[..];
    pass0 := OnePass(R, a, FIRST, FIRST_COPY);
    SamePass(Picture(height, width, 0), before, pass0);
    pass1 := SecondPass(R, a, pass0);
  }
}

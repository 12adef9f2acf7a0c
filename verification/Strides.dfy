/** The row strides `isp_set_pic_size` programs, against the rows `isp_core_get_buf_size` allocates. */
module Strides {
  import opened Bytes
  import opened Log2
  import opened Bits
  import opened IspPool
  import opened IspCore

  /** `raw_stride` and `q_stride`, before masking. */
  function RawStride(w: u32): u32 {
    Word(w as int * 10 + 7) / 8 + 7
  }

  function QuarterStride(w: u32): u32 {
    Word(w as int / 4 * 10) / 8 + 7
  }

  /** Strides are multiples of eight octets. */
  function Whole8(v: u32): u32 {
    v as int - v as int % 8
  }

  predicate NoOverflow(w: u32) {
    w as int * 10 + 7 < 0x1_0000_0000
  }

  lemma Eight(v: u32)
    requires v < 0x8000_0000
    ensures BitAnd(v, 0xffff_fff8) == Whole8(v) as int
    ensures BitOr(BitAnd(v, 0x7fff_fff8), 0x8000_0000) == 0x8000_0000 + Whole8(v) as int
    ensures BitAnd(v, 0xfff8) == Whole8(v) as int % 0x1_0000
  {
    hide BitAnd, BitOr, Whole8;
    MaskBits8(v);
    Low31(v);
    Low16(v);
  }

  lemma Low31(v: u32)
    requires v < 0x8000_0000
    ensures BitOr(BitAnd(v, 0x7fff_fff8), 0x8000_0000) == 0x8000_0000 + Whole8(v) as int
  {
    hide BitAnd, BitOr;
    assert Pow2(3) == 8;
    assert Pow2(31) == 0x8000_0000 by {
      Pow2Of32();
    }
    hide Pow2;
    BitAndMask(v, 3, 31);
    BitOrDisjoint(Whole8(v), 1, 31);
  }

  lemma Low16(v: u32)
    ensures BitAnd(v, 0xfff8) == Whole8(v) as int % 0x1_0000
  {
    hide BitAnd;
    assert Pow2(3) == 8;
    assert Pow2(16) == 0x1_0000 by {
      Pow2Of8();
      Pow2Add(8, 8);
    }
    hide Pow2;
    BitAndMask(v, 3, 16);
    LowWhole8(v);
  }

  lemma LowWhole8(v: u32)
    ensures Whole8(v) as int % 0x1_0000 == v as int % 0x1_0000 - v as int % 8
  {
  }

  /** The rows that the pool is sized for, as strides. */
  lemma RowsAre(w: u32)
    ensures MainRow(w) == Whole8(RawStride(w))
    ensures NoOverflow(w) ==> SubRow(w) as int == Whole8((w as int / 4 * 10 + 7) / 8 + 7) as int
  {
    hide BitAnd;
    MaskBits8(RawStride(w));
    WordPlain(RawStride(w) as int);
    if NoOverflow(w) {
      WordPlain(w as int / 4 * 10 + 7);
      MaskBits8((w as int / 4 * 10 + 7) / 8 + 7);
      WordPlain((w as int / 4 * 10 + 7) / 8 + 7);
    }
    hide Word, Whole8;
  }

  lemma MaskBits8(v: u32)
    ensures BitAnd(v, 0xffff_fff8) == Whole8(v) as int
  {
    hide BitAnd;
    Masks(v);
  }

  /** The allocated rows are the least multiples of eight octets that hold ten bits for each pixel, and for each
      of a quarter as many. */
  lemma RowHoldsPixels(w: u32)
    requires NoOverflow(w)
    ensures MainRow(w) % 8 == 0 && 8 * MainRow(w) as int >= 10 * w as int
    ensures MainRow(w) > 0 ==> 8 * (MainRow(w) as int - 8) < 10 * w as int
    ensures SubRow(w) % 8 == 0 && 8 * SubRow(w) as int >= 10 * (w as int / 4)
    ensures SubRow(w) > 0 ==> 8 * (SubRow(w) as int - 8) < 10 * (w as int / 4)
  {
    hide MainRow, SubRow, Whole8, Word;
    RowsAre(w);
    WordPlain(w as int * 10 + 7);
    RowOf(w as int * 10);
    RowOf(w as int / 4 * 10);
  }

  /** Whole octets for `bits`, rounded up to eight of them. */
  lemma RowOf(bits: nat)
    requires bits + 7 < 0x1_0000_0000
    ensures var row := Whole8((bits + 7) / 8 + 7) as int;
            row % 8 == 0 && 8 * row >= bits && (row > 0 ==> 8 * (row - 8) < bits)
  {
    var c := (bits + 7) / 8;
    assert 8 * c >= bits && 8 * (c - 1) < bits;
  }

  /** The quarter stride is floored where the allocator takes the ceiling: it never exceeds the allocated
      row, falls short by eight octets at most, and is equal exactly when the quarter row ends on an octet
      or away from a multiple of eight of them. */
  lemma QuarterExactly(w: u32)
    requires NoOverflow(w)
    ensures var n, stride := w as int / 4, Whole8(QuarterStride(w)) as int;
            && stride <= SubRow(w) as int
            && (stride == SubRow(w) as int <==> n % 4 == 0 || 5 * n / 4 % 8 != 0)
            && (stride != SubRow(w) as int ==> stride + 8 == SubRow(w) as int)
  {
    hide MainRow, SubRow, Word, Whole8;
    RowsAre(w);
    var n := w as int / 4;
    WordPlain(n * 10);
    FloorCeiling(n);
  }

  lemma FloorCeiling(n: nat)
    requires n * 10 + 7 < 0x1_0000_0000
    ensures var stride, row := Whole8(n * 10 / 8 + 7) as int, Whole8((n * 10 + 7) / 8 + 7) as int;
            && stride <= row
            && (stride == row <==> n % 4 == 0 || 5 * n / 4 % 8 != 0)
            && (stride != row ==> stride + 8 == row)
  {
    hide Whole8;
    Quarters(n);
    NextWhole8(5 * n / 4 + 7);
  }

  /** Whole octets in `n` samples of ten bits, rounded down and up. */
  lemma Quarters(n: nat)
    ensures n * 10 / 8 == 5 * n / 4 && (n * 10 + 7) / 8 == 5 * n / 4 + if n % 4 == 0 then 0 else 1
  {
    var q, r := n / 4, n % 4;
    assert n == 4 * q + r && 5 * n == 4 * (5 * q) + 5 * r && n * 10 == 8 * (5 * q) + 10 * r;
  }

  /** Rounding down to eights, of a number and the next. */
  lemma NextWhole8(v: nat)
    requires v + 1 < 0x1_0000_0000
    ensures Whole8(v + 1) as int == if (v - 7) % 8 == 0 then Whole8(v) as int + 8 else Whole8(v) as int
  {
  }

  /** Sixteen dividing the width is enough. */
  lemma SixteenDivides(w: u32)
    requires NoOverflow(w) && w % 16 == 0
    ensures Whole8(QuarterStride(w)) == SubRow(w)
  {
    hide SubRow, QuarterStride, Whole8;
    QuarterExactly(w);
    Quarter16(w);
  }

  lemma Quarter16(w: nat)
    requires w % 16 == 0
    ensures w / 4 % 4 == 0
  {
  }

  /** But not necessary, and without it equality can fail: rows of 104 fail, rows of 136 do not. */
  lemma NotAlways()
    ensures Whole8(QuarterStride(104)) != SubRow(104)
    ensures Whole8(QuarterStride(136)) == SubRow(136)
  {
    hide SubRow, QuarterStride, Whole8;
    QuarterExactly(104);
    QuarterExactly(136);
  }

  /** Whole pictures at the programmed strides fit the buffers. */
  lemma PicturesFit(w: u32, h: u32)
    requires NoOverflow(w) && h as int * MainRow(w) as int < 0x1_0000_0000 && h as int / 4 * SubRow(w) as int < 0x1_0000_0000
    ensures h as int * Whole8(RawStride(w)) as int == FrameSize(w, h) as int
    ensures h as int / 4 * Whole8(QuarterStride(w)) as int <= CoefSize(w, h) as int == h as int / 4 * SubRow(w) as int
  {
    hide MainRow, SubRow, Whole8, QuarterStride, RawStride, Word;
    RowsAre(w);
    QuarterExactly(w);
    var q: nat := h as int / 4;
    TimesMono(q, Whole8(QuarterStride(w)), SubRow(w));
    WordPlain(h as int * MainRow(w) as int);
    WordPlain(q * SubRow(w) as int);
  }

  lemma RowsBounded(w: u32)
    requires w <= 0x4000
    ensures MainRow(w) <= 0x5008 && SubRow(w) <= 0x1408
  {
    hide MainRow, SubRow, Word;
    RowsAre(w);
    WordPlain(w as int * 10 + 7);
  }

  /** Pictures of up to 16384 by 16384 are nowhere near overflowing: the pool and the strides fit them all. */
  lemma OrdinaryPictures(w: u32, h: u32)
    requires w <= 0x4000 && h <= 0x4000
    ensures NoOverflow(w) && TotalFits(w, h)
    ensures h as int * MainRow(w) as int < 0x1_0000_0000 && h as int / 4 * SubRow(w) as int < 0x1_0000_0000
  {
    hide MainRow, SubRow, Word, RoundUp;
    RowsBounded(w);
    var q: nat := h as int / 4;
    TimesMono(h, MainRow(w), 0x5008);
    TimesMono(q, SubRow(w), 0x1408);
    WordPlain(h as int * MainRow(w) as int);
    WordPlain(q * SubRow(w) as int);
    RoundUpIs(FrameSize(w, h), 0x80);
    RoundUpIs(CoefSize(w, h), 0x80);
  }

  predicate StrideRegister(k: int) {
    k in {0x2e8 / 4, 0x2f0 / 4, 0x308 / 4, 0x310 / 4, 0x318 / 4, 0x320 / 4, 0x41c / 4, 0xaa8 / 4}
  }

  /** The stride writes of `isp_set_pic_size`. */
  method SetStrides(R: array<u32>, w: u32)
    requires R.Length > 0xaa8 / 4
    modifies R
    ensures R[0x2e8 / 4] == MainRow(w) && R[0x2f0 / 4] as int == 0x8000_0000 + MainRow(w) as int
    ensures var q := Whole8(QuarterStride(w)) as int;
            && R[0x308 / 4] as int == q && R[0x310 / 4] as int == 0x8000_0000 + q
            && R[0x318 / 4] as int == q && R[0x320 / 4] as int == 0x8000_0000 + q
            && R[0x41c / 4] as int == q % 0x1_0000 && R[0xaa8 / 4] as int == q % 0x1_0000
    ensures forall k | 0 <= k < R.Length && !StrideRegister(k) :: R[k] == old(R[k])
  {
    var raw, q := RawStride(w), QuarterStride(w);
    RowsAre(w);
    Eight(raw);
    Eight(q);
    hide BitAnd, BitOr, MainRow, SubRow, Whole8;
    R[0x2e8 / 4] := BitAnd(raw, 0xffff_fff8);
    var enabled: u32 := BitOr(BitAnd(q, 0x7fff_fff8), 0x8000_0000);
    R[0x2f0 / 4] := BitOr(BitAnd(raw, 0x7fff_fff8), 0x8000_0000);
    R[0x308 / 4] := BitAnd(q, 0xffff_fff8);
    R[0x310 / 4] := enabled;
    R[0x318 / 4] := BitAnd(q, 0xffff_fff8);
    R[0x320 / 4] := enabled;
    R[0x41c / 4] := BitAnd(q, 0xfff8);
    R[0xaa8 / 4] := BitAnd(q, 0xfff8);
  }
}

/** `isp_core_get_buf_size` and `isp_core_alloc_buf_addr`: one computed total, thirteen allocations from it. */
module IspCore {
  import opened Bytes
  import opened Log2
  import opened Bits
  import opened IspPool

  // ----- sizes -----

  function RoundUp8(v: u32): u32 {
    BitAnd(Word(v as int + 7), 0xffff_fff8)
  }

  function RoundUp128(v: u32): u32 {
    BitAnd(Word(v as int + 0x7f), 0xffff_ff80)
  }

  lemma MaskBits(x: u32, k: nat)
    requires k <= 32
    ensures Pow2(k) <= 0x1_0000_0000 && BitAnd(x, 0x1_0000_0000 - Pow2(k)) == x as int - x as int % Pow2(k)
  {
    hide BitAnd;
    Pow2Of32();
    BitAndMask(x, k, 32);
  }

  lemma Masks(x: u32)
    ensures BitAnd(x, 0xffff_fff8) == x as int - x as int % 8
    ensures BitAnd(x, 0xffff_ff80) == x as int - x as int % 0x80
    ensures BitAnd(x, 0xffff_0000) == x as int - x as int % 0x1_0000
  {
    hide BitAnd;
    assert Pow2(3) == 8 && Pow2(7) == 0x80;
    assert Pow2(16) == 0x1_0000 by {
      Pow2Of8();
      Pow2Add(8, 8);
    }
    hide Pow2;
    MaskBits(x, 3);
    MaskBits(x, 7);
    MaskBits(x, 16);
  }

  lemma RoundUp128Is(v: u32)
    requires v as int + 0x7f < 0x1_0000_0000
    ensures RoundUp128(v) as int == RoundUp(v, 0x80)
  {
    hide BitAnd, Word;
    WordPlain(v as int + 0x7f);
    Masks(v as int + 0x7f);
  }

  const ISPP_STAT_SIZE := 3 * 0x60c8
  const ISPF_STAT_SIZE := 3 * 4

  /** Octets in a row of `width` ten-bit samples, as allocated. */
  function MainRow(width: u32): u32 {
    RoundUp8(Word(width as int * 10 + 7) / 8)
  }

  /** Octets in a row of a quarter as many. */
  function SubRow(width: u32): u32 {
    RoundUp8(Word(width as int / 4 * 10 + 7) / 8)
  }

  /** `out[0]` and `out[1]`. */
  function FrameSize(width: u32, height: u32): u32 {
    Word(height as int * MainRow(width) as int)
  }

  function CoefSize(width: u32, height: u32): u32 {
    var quarter: nat := height as int / 4;
    Word(quarter * SubRow(width) as int)
  }

  /** `out[0x15]`: the pool's size. */
  function TotalSize(width: u32, height: u32): u32 {
    Word(RoundUp128(FrameSize(width, height)) as int
         + BitAnd(RoundUp128(ISPF_STAT_SIZE) as int + RoundUp128(ISPP_STAT_SIZE) as int + 0xffff, 0xffff_0000)
         + RoundUp128(CoefSize(width, height)) as int * 2 + 0x9400)
  }

  /** The total does not overflow a word. */
  predicate TotalFits(width: u32, height: u32) {
    RoundUp(FrameSize(width, height), 0x80) + 0x2_0000 + 2 * RoundUp(CoefSize(width, height), 0x80) + 0x9400 < 0x1_0000_0000
  }

  lemma TotalIs(width: u32, height: u32)
    requires TotalFits(width, height)
    ensures TotalSize(width, height) as int ==
            RoundUp(FrameSize(width, height), 0x80) + 0x2_0000 + 2 * RoundUp(CoefSize(width, height), 0x80) + 0x9400
  {
    StatSizes();
    hide BitAnd, FrameSize, CoefSize, RoundUp128, RoundUp;
    var f, c := FrameSize(width, height), CoefSize(width, height);
    RoundUpIs(f, 0x80);
    RoundUpIs(c, 0x80);
    RoundUp128Is(f);
    RoundUp128Is(c);
  }

  lemma StatSizes()
    ensures RoundUp128(ISPF_STAT_SIZE) == 0x80 && RoundUp128(ISPP_STAT_SIZE) == 0x1_2280
    ensures BitAnd(0x80 + 0x1_2280 + 0xffff, 0xffff_0000) == 0x2_0000
  {
    hide BitAnd, RoundUp128;
    Masks(0x80 + 0x1_2280 + 0xffff);
    StatRoundings();
    RoundUp128Is(ISPF_STAT_SIZE);
    RoundUp128Is(ISPP_STAT_SIZE);
    hide RoundUp;
  }

  lemma StatRoundings()
    ensures RoundUp(ISPF_STAT_SIZE, 0x80) == 0x80 && RoundUp(ISPP_STAT_SIZE, 0x80) == 0x1_2280
  {
  }

  // ----- the buffers -----

  datatype Field = IspMemFront | Gosd | IsppStat | IspfStat | IspbStat | Nr3dStat | Nr3dFrame | Nr3dCoef
                 | Nr3dNr2dCoef | MemAfterNr3d | DrcStat0 | MemAfterDrc | IspMemEnd

  datatype Want = Want(field: Field, size: u32)

  /** `isp_core`: the pool, and an address and a size for every field. */
  datatype Core = Core(pool: Pool, addr: map<Field, u32>, size: map<Field, u32>)

  predicate Whole(m: map<Field, u32>) {
    forall f: Field :: f in m
  }

  datatype Outcome = Outcome(core: Core, ok: bool)

  /** The `ALLOC` macro. */
  function Alloc(s: Core, w: Want): Outcome {
    var g := Malloc(s.pool, w.size, 0x80);
    if !g.ok then Outcome(s, false) else
    Outcome(Core(g.pool, if g.addr.Some? then s.addr[w.field := g.addr.value] else s.addr, s.size[w.field := w.size]), true)
  }

  /** Allocations in order, up to the first that fails. */
  function AllocAll(s: Core, wants: seq<Want>): Outcome
    decreases |wants|
  {
    if wants == [] then Outcome(s, true)
    else
      var r := Alloc(s, wants[0]);
      if r.ok then AllocAll(r.core, wants[1..]) else r
  }

  lemma {:induction false} AllocAppend(s: Core, a: seq<Want>, b: seq<Want>)
    ensures AllocAll(s, a + b) == if AllocAll(s, a).ok then AllocAll(AllocAll(s, a).core, b) else AllocAll(s, a)
    decreases |a|
  {
    if a == [] {
      assert a + b == b;
    } else {
      assert (a + b)[1..] == a[1..] + b;
      if Alloc(s, a[0]).ok {
        AllocAppend(Alloc(s, a[0]).core, a[1..], b);
      }
    }
  }

  function Need(wants: seq<Want>): nat
    decreases |wants|
  {
    if wants == [] then 0 else RoundUp(wants[0].size, 0x80) + Need(wants[1..])
  }

  predicate Named(f: Field, wants: seq<Want>) {
    exists k :: 0 <= k < |wants| && wants[k].field == f
  }

  predicate Distinct(wants: seq<Want>)
    decreases |wants|
  {
    wants == [] || (!Named(wants[0].field, wants[1..]) && Distinct(wants[1..]))
  }

  /** `r` holds the wanted buffers end to end from `at`, 128-aligned; a field of size 0 keeps the address in `before`. */
  predicate Laid(before: map<Field, u32>, r: Core, wants: seq<Want>, at: nat)
    requires Whole(before) && Whole(r.addr) && Whole(r.size)
    decreases |wants|
  {
    wants == [] ||
    (var w := wants[0];
     && r.size[w.field] == w.size
     && r.addr[w.field] as int == (if w.size == 0 then before[w.field] as int else at)
     && Laid(before, r, wants[1..], at + RoundUp(w.size, 0x80)))
  }

  lemma NamedRest(f: Field, wants: seq<Want>)
    requires |wants| > 0 && !Named(f, wants)
    ensures wants[0].field != f && !Named(f, wants[1..])
  {
    forall k | 0 <= k < |wants[1..]|
      ensures wants[1..][k].field != f
    {
      assert wants[1..][k] == wants[k + 1];
    }
  }

  /** Fields not asked for keep their address and size. */
  lemma {:induction false} Untouched(s: Core, wants: seq<Want>, f: Field)
    requires Whole(s.addr) && Whole(s.size)
    ensures Whole(AllocAll(s, wants).core.addr) && Whole(AllocAll(s, wants).core.size)
    ensures !Named(f, wants) ==> AllocAll(s, wants).core.addr[f] == s.addr[f] && AllocAll(s, wants).core.size[f] == s.size[f]
    decreases |wants|
  {
    if wants != [] {
      hide Malloc, Named;
      if !Named(f, wants) {
        NamedRest(f, wants);
      }
      if Alloc(s, wants[0]).ok {
        Untouched(Alloc(s, wants[0]).core, wants[1..], f);
      }
    }
  }

  lemma {:induction false} LaidBefore(b: map<Field, u32>, c: map<Field, u32>, r: Core, wants: seq<Want>, at: nat)
    requires Whole(b) && Whole(c) && Whole(r.addr) && Whole(r.size) && Laid(c, r, wants, at)
    requires forall f: Field :: Named(f, wants) ==> b[f] == c[f]
    ensures Laid(b, r, wants, at)
    decreases |wants|
  {
    if wants != [] {
      assert Named(wants[0].field, wants);
      forall f: Field | Named(f, wants[1..])
        ensures Named(f, wants)
      {
        var k :| 0 <= k < |wants[1..]| && wants[1..][k].field == f;
        assert wants[k + 1].field == f;
      }
      LaidBefore(b, c, r, wants[1..], at + RoundUp(wants[0].size, 0x80));
    }
  }

  predicate On128(x: nat) {
    x % 0x80 == 0
  }

  lemma On128Sum(a: nat, b: nat)
    requires On128(a) && On128(b)
    ensures On128(a + b)
  {
  }

  lemma Rounded(x: nat)
    ensures x <= RoundUp(x, 0x80) < x + 0x80 && On128(RoundUp(x, 0x80))
  {
    RoundUpIs(x, 0x80);
  }

  /** What a pool must have left, for `wants`. */
  predicate Room(p: Pool, wants: seq<Want>) {
    PoolOk(p) && On128(p.base) && RoundUp(p.cursor, 0x80) + Need(wants) <= p.total as int
  }

  /** With that much left, the next allocation succeeds at the next multiple of 128. */
  lemma AllocNext(p: Pool, wants: seq<Want>)
    requires |wants| > 0 && Room(p, wants)
    ensures var g := Malloc(p, wants[0].size, 0x80);
            && g.ok && Room(g.pool, wants[1..]) && g.pool.base == p.base && g.pool.total == p.total
            && RoundUp(g.pool.cursor, 0x80) == RoundUp(p.cursor, 0x80) + RoundUp(wants[0].size, 0x80)
            && (if wants[0].size == 0 then g.addr == None
                else g.addr.Some? && g.addr.value as int == p.base as int + RoundUp(p.cursor, 0x80))
  {
    hide Malloc, RoundUp;
    if wants[0].size > 0 {
      AllocAt(p, wants[0].size);
    } else {
      RoundUpZero();
      hide PoolOk;
      MallocNothing(p);
    }
  }

  lemma MallocNothing(p: Pool)
    ensures Malloc(p, 0, 0x80) == Grant(p, None, true)
  {
  }

  lemma AllocAt(p: Pool, size: u32)
    requires PoolOk(p) && On128(p.base) && size > 0
    requires RoundUp(p.cursor, 0x80) + RoundUp(size, 0x80) <= p.total as int
    ensures var at := p.base as int + RoundUp(p.cursor, 0x80);
            at + size as int - p.base as int < 0x1_0000_0000 && at < 0x1_0000_0000
            && Malloc(p, size, 0x80) == Grant(p.(cursor := at + size as int - p.base as int), Some(at), true)
    ensures RoundUp(RoundUp(p.cursor, 0x80) + size as int, 0x80) == RoundUp(p.cursor, 0x80) + RoundUp(size, 0x80)
    ensures RoundUp(p.cursor, 0x80) + size as int <= p.total as int
  {
    assert Pow2(7) == 0x80;
    hide Malloc, RoundUp, On128;
    Offset(p.base, p.cursor);
    Rounded(p.cursor);
    Rounded(size);
    Offset(RoundUp(p.cursor, 0x80), size);
    On128Sum(p.base, RoundUp(p.cursor, 0x80));
    TopRoom(p.base as int + RoundUp(p.cursor, 0x80));
    MallocIs(p, size, 0x80);
  }

  lemma TopRoom(x: nat)
    requires On128(x) && x < 0x1_0000_0000
    ensures x <= 0x1_0000_0000 - 0x80
  {
  }

  lemma Offset(a: nat, b: nat)
    requires On128(a)
    ensures RoundUp(a + b, 0x80) == a + RoundUp(b, 0x80)
  {
  }

  /** What that allocation does to the core. */
  lemma AllocNextCore(s: Core, wants: seq<Want>)
    requires Whole(s.addr) && Whole(s.size) && |wants| > 0 && Room(s.pool, wants)
    ensures var r, w, at := Alloc(s, wants[0]), wants[0], s.pool.base as int + RoundUp(s.pool.cursor, 0x80);
            && r.ok && Room(r.core.pool, wants[1..]) && Whole(r.core.addr) && Whole(r.core.size)
            && r.core.pool.base == s.pool.base && r.core.pool.total == s.pool.total
            && at + RoundUp(w.size, 0x80) == r.core.pool.base as int + RoundUp(r.core.pool.cursor, 0x80)
            && r.core.size[w.field] == w.size
            && (if w.size == 0 then r.core.addr == s.addr else at < 0x1_0000_0000 && r.core.addr == s.addr[w.field := at])
  {
    AllocNext(s.pool, wants);
    hide Malloc, RoundUp, Room;
  }

  /** Enough room makes every allocation succeed, and fixes where each buffer is. */
  lemma {:induction false} Enough(s: Core, wants: seq<Want>)
    requires Whole(s.addr) && Whole(s.size) && Distinct(wants) && Room(s.pool, wants)
    ensures var r := AllocAll(s, wants);
            && r.ok && Whole(r.core.addr) && Whole(r.core.size)
            && r.core.pool.base == s.pool.base && r.core.pool.total == s.pool.total
            && Laid(s.addr, r.core, wants, s.pool.base as int + RoundUp(s.pool.cursor, 0x80))
    decreases |wants|
  {
    if wants != [] {
      AllocNextCore(s, wants);
      hide Alloc, Room, RoundUp, Named, Laid, Whole;
      Enough(Alloc(s, wants[0]).core, wants[1..]);
      LaidFirst(s, wants);
    }
  }

  lemma LaidFirst(s: Core, wants: seq<Want>)
    requires Whole(s.addr) && Whole(s.size) && Distinct(wants) && Room(s.pool, wants) && wants != []
    requires var r := Alloc(s, wants[0]); var end := AllocAll(r.core, wants[1..]).core;
             && r.ok && Whole(r.core.addr) && Whole(end.addr) && Whole(end.size)
             && Laid(r.core.addr, end, wants[1..], r.core.pool.base as int + RoundUp(r.core.pool.cursor, 0x80))
    ensures var end := AllocAll(Alloc(s, wants[0]).core, wants[1..]).core;
            Laid(s.addr, end, wants, s.pool.base as int + RoundUp(s.pool.cursor, 0x80))
  {
    hide Alloc, Room, RoundUp, AllocAll, Named, Laid;
    AllocNextCore(s, wants);
    var t := Alloc(s, wants[0]).core;
    Untouched(t, wants[1..], wants[0].field);
    LaidCons(s.addr, t.addr, AllocAll(t, wants[1..]).core, wants, s.pool.base as int + RoundUp(s.pool.cursor, 0x80));
  }

  lemma LaidCons(before: map<Field, u32>, mid: map<Field, u32>, r: Core, wants: seq<Want>, at: nat)
    requires wants != [] && !Named(wants[0].field, wants[1..])
    requires Whole(before) && Whole(mid) && Whole(r.addr) && Whole(r.size)
    requires wants[0].size == 0 ==> mid == before
    requires wants[0].size > 0 ==> at < 0x1_0000_0000 && mid == before[wants[0].field := at]
    requires r.size[wants[0].field] == wants[0].size && r.addr[wants[0].field] == mid[wants[0].field]
    requires Laid(mid, r, wants[1..], at + RoundUp(wants[0].size, 0x80))
    ensures Laid(before, r, wants, at)
  {
    hide RoundUp, Named;
    LaidBefore(before, mid, r, wants[1..], at + RoundUp(wants[0].size, 0x80));
  }

  /** A laid-out buffer is 128-aligned and within the octets from `at` that `Need` reserves. */
  lemma {:induction false} LaidAt(before: map<Field, u32>, r: Core, wants: seq<Want>, at: nat, i: nat)
    requires Whole(before) && Whole(r.addr) && Whole(r.size) && Laid(before, r, wants, at)
    requires On128(at) && i < |wants| && wants[i].size > 0
    ensures var a := r.addr[wants[i].field] as int;
            at <= a && a + wants[i].size as int <= at + Need(wants) && On128(a)
    ensures r.size[wants[i].field] == wants[i].size
    decreases |wants|
  {
    hide RoundUp, On128;
    Rounded(wants[0].size);
    On128Sum(at, RoundUp(wants[0].size, 0x80));
    if i > 0 {
      LaidAt(before, r, wants[1..], at + RoundUp(wants[0].size, 0x80), i - 1);
    }
  }

  lemma {:induction false} LaidApart(before: map<Field, u32>, r: Core, wants: seq<Want>, at: nat, i: nat, j: nat)
    requires Whole(before) && Whole(r.addr) && Whole(r.size) && Laid(before, r, wants, at)
    requires On128(at) && i < j < |wants| && wants[i].size > 0 && wants[j].size > 0
    ensures r.addr[wants[i].field] as int + wants[i].size as int <= r.addr[wants[j].field] as int
    decreases |wants|
  {
    hide RoundUp, On128;
    Rounded(wants[0].size);
    On128Sum(at, RoundUp(wants[0].size, 0x80));
    var next := at + RoundUp(wants[0].size, 0x80);
    if i > 0 {
      LaidApart(before, r, wants[1..], next, i - 1, j - 1);
    } else {
      LaidAt(before, r, wants[1..], next, j - 1);
    }
  }

  // ----- the thirteen -----

  /** Six buffers up to the 3DNR statistics, and seven from the 3DNR frame on. */
  function Front(): seq<Want> {
    [Want(IspMemFront, 0), Want(Gosd, 0x200), Want(IsppStat, ISPP_STAT_SIZE), Want(IspfStat, ISPF_STAT_SIZE),
     Want(IspbStat, 0), Want(Nr3dStat, 0x5000)]
  }

  function Back(frame: u32, coef: u32): seq<Want> {
    [Want(Nr3dFrame, frame), Want(Nr3dCoef, coef), Want(Nr3dNr2dCoef, coef)] + Tail()
  }

  function Tail(): seq<Want> {
    [Want(MemAfterNr3d, 0), Want(DrcStat0, 0x41a0), Want(MemAfterDrc, 0), Want(IspMemEnd, 0)]
  }

  function Wants(width: u32, height: u32): seq<Want> {
    Front() + Back(FrameSize(width, height), CoefSize(width, height))
  }

  lemma {:induction false} NeedAppend(a: seq<Want>, b: seq<Want>)
    ensures Need(a + b) == Need(a) + Need(b)
    decreases |a|
  {
    hide RoundUp;
    if a == [] {
      assert a + b == b;
    } else {
      assert (a + b)[1..] == a[1..] + b;
      NeedAppend(a[1..], b);
    }
  }

  lemma NeedCons(w: Want, ws: seq<Want>)
    ensures Need([w] + ws) == RoundUp(w.size, 0x80) + Need(ws)
  {
    assert ([w] + ws)[1..] == ws;
  }

  lemma NeedFront()
    ensures Need(Front()) == 0x1_7500
  {
  }

  lemma NeedTail()
    ensures Need(Tail()) == 0x4200
  {
  }

  lemma NeedBack(frame: u32, coef: u32)
    ensures Need(Back(frame, coef)) == RoundUp(frame, 0x80) + 2 * RoundUp(coef, 0x80) + 0x4200
  {
    NeedTail();
    var a, b := Want(Nr3dCoef, coef), Want(Nr3dNr2dCoef, coef);
    hide RoundUp, Need, Tail;
    NeedCons(b, Tail());
    NeedCons(a, [b] + Tail());
    NeedCons(Want(Nr3dFrame, frame), [a] + ([b] + Tail()));
    assert Back(frame, coef) == [Want(Nr3dFrame, frame)] + ([a] + ([b] + Tail()));
  }

  lemma WantsDistinct(width: u32, height: u32)
    ensures Distinct(Wants(width, height))
  {
    hide FrameSize, CoefSize;
    var w := Wants(width, height);
    DistinctFrom(w, 0);
  }

  lemma {:induction false} DistinctFrom(w: seq<Want>, i: nat)
    requires i <= |w| && forall j, k :: 0 <= j < k < |w| ==> w[j].field != w[k].field
    ensures Distinct(w[i..])
    decreases |w| - i
  {
    if i < |w| {
      assert w[i..][1..] == w[i + 1..];
      DistinctFrom(w, i + 1);
    }
  }

  /** The computed total makes all thirteen allocations succeed. */
  lemma PoolSuffices(s: Core, width: u32, height: u32)
    requires Whole(s.addr) && Whole(s.size) && TotalFits(width, height)
    requires PoolOk(s.pool) && On128(s.pool.base) && s.pool.cursor == 0 && s.pool.total == TotalSize(width, height)
    ensures var r := AllocAll(s, Wants(width, height));
            && r.ok && Whole(r.core.addr) && Whole(r.core.size)
            && r.core.pool.base == s.pool.base && r.core.pool.total == s.pool.total
            && Laid(s.addr, r.core, Wants(width, height), s.pool.base)
    ensures Need(Wants(width, height)) <= s.pool.total as int
  {
    hide *;
    RoundUpZero();
    RoomForAll(s.pool, width, height);
    WantsDistinct(width, height);
    Enough(s, Wants(width, height));
  }

  lemma RoundUpZero()
    ensures RoundUp(0, 0x80) == 0
  {
  }

  lemma RoomForAll(p: Pool, width: u32, height: u32)
    requires TotalFits(width, height)
    requires PoolOk(p) && On128(p.base) && p.cursor == 0 && p.total == TotalSize(width, height)
    ensures Room(p, Wants(width, height)) && Need(Wants(width, height)) <= p.total as int
  {
    var frame, coef := FrameSize(width, height), CoefSize(width, height);
    TotalIs(width, height);
    assert RoundUp(0, 0x80) == 0;
    hide Need, RoundUp, TotalFits, TotalSize, Front, Back, FrameSize, CoefSize;
    NeedFront();
    NeedBack(frame, coef);
    NeedAppend(Front(), Back(frame, coef));
  }

  /** Each buffer that is not empty is 128-aligned and inside the pool; an empty one keeps its address. */
  lemma EachInside(s: Core, width: u32, height: u32, i: nat)
    requires Whole(s.addr) && Whole(s.size) && TotalFits(width, height) && i < |Wants(width, height)|
    requires PoolOk(s.pool) && On128(s.pool.base) && s.pool.cursor == 0 && s.pool.total == TotalSize(width, height)
    ensures var r, w := AllocAll(s, Wants(width, height)), Wants(width, height)[i];
            && Whole(r.core.addr) && Whole(r.core.size) && r.core.size[w.field] == w.size
            && (w.size > 0 ==>
                  && On128(r.core.addr[w.field]) && s.pool.base <= r.core.addr[w.field]
                  && r.core.addr[w.field] as int + w.size as int <= s.pool.base as int + s.pool.total as int)
            && (w.size == 0 ==> r.core.addr[w.field] == s.addr[w.field])
  {
    PoolSuffices(s, width, height);
    hide AllocAll, Wants, TotalFits, TotalSize, Laid;
    var r, wants := AllocAll(s, Wants(width, height)).core, Wants(width, height);
    if wants[i].size > 0 {
      LaidAt(s.addr, r, wants, s.pool.base, i);
    } else {
      LaidEmpty(s.addr, r, wants, s.pool.base, i);
    }
  }

  lemma {:induction false} LaidEmpty(before: map<Field, u32>, r: Core, wants: seq<Want>, at: nat, i: nat)
    requires Whole(before) && Whole(r.addr) && Whole(r.size) && Laid(before, r, wants, at)
    requires i < |wants| && wants[i].size == 0
    ensures r.size[wants[i].field] == 0 && r.addr[wants[i].field] == before[wants[i].field]
    decreases |wants|
  {
    hide RoundUp;
    if i > 0 {
      LaidEmpty(before, r, wants[1..], at + RoundUp(wants[0].size, 0x80), i - 1);
    }
  }

  /** No two of the buffers overlap. */
  lemma NoneOverlap(s: Core, width: u32, height: u32, i: nat, j: nat)
    requires Whole(s.addr) && Whole(s.size) && TotalFits(width, height) && i < j < |Wants(width, height)|
    requires PoolOk(s.pool) && On128(s.pool.base) && s.pool.cursor == 0 && s.pool.total == TotalSize(width, height)
    requires Wants(width, height)[i].size > 0 && Wants(width, height)[j].size > 0
    ensures var r, v, w := AllocAll(s, Wants(width, height)).core, Wants(width, height)[i], Wants(width, height)[j];
            && v.field in r.addr && w.field in r.addr
            && r.addr[v.field] as int + v.size as int <= r.addr[w.field] as int
  {
    PoolSuffices(s, width, height);
    hide AllocAll, Wants, TotalFits, TotalSize, Laid;
    LaidApart(s.addr, AllocAll(s, Wants(width, height)).core, Wants(width, height), s.pool.base, i, j);
  }

  // ----- the object -----

  /** A static object starts out as zeroes. */
  const ZEROES: map<Field, u32> :=
    map[IspMemFront := 0, Gosd := 0, IsppStat := 0, IspfStat := 0, IspbStat := 0, Nr3dStat := 0, Nr3dFrame := 0,
        Nr3dCoef := 0, Nr3dNr2dCoef := 0, MemAfterNr3d := 0, DrcStat0 := 0, MemAfterDrc := 0, IspMemEnd := 0]

  /** The negative statuses of `isp_malloc` and `isp_core_alloc_buf_addr`. */
  const ERR_MALLOC: int := 0xa008_400e - 0x1_0000_0000
  const FH_ERR_MEM_ALLOC: int := 0xa008_400b - 0x1_0000_0000

  /** The 88-octet structure that the driver copies to its address registers: nine addresses, each at its
      octet offset, and zeroes. */
  predicate Wired(d: seq<u32>, addr: map<Field, u32>)
    requires Whole(addr)
  {
    && |d| == 88 / 4
    && d[24 / 4] == addr[Nr3dFrame] && d[28 / 4] == addr[Nr3dCoef] && d[32 / 4] == addr[Nr3dNr2dCoef]
    && d[36 / 4] == addr[Nr3dStat] && d[40 / 4] == addr[DrcStat0] && d[60 / 4] == addr[Gosd]
    && d[72 / 4] == addr[IspMemFront] && d[80 / 4] == addr[MemAfterNr3d] && d[84 / 4] == addr[MemAfterDrc]
    && (forall k :: 0 <= k < 22 && 4 * k !in {24, 28, 32, 36, 40, 60, 72, 80, 84} ==> d[k] == 0)
  }

  /** The buffers each field asks for, by name. */
  function SizeOf(f: Field, frame: u32, coef: u32): u32 {
    match f
    case Gosd => 512
    case IsppStat => 3 * 24776
    case IspfStat => 12
    case Nr3dStat => 20480
    case Nr3dFrame => frame
    case Nr3dCoef => coef
    case Nr3dNr2dCoef => coef
    case DrcStat0 => 16800
    case _ => 0
  }

  /** A field has its size; its buffer, unless empty, is 128-aligned and in the `total` octets from `base`, and
      otherwise it keeps the address in `before`. */
  predicate InPlace(f: Field, before: map<Field, u32>, r: Core, base: u32, total: u32, size: u32)
    requires Whole(before) && Whole(r.addr) && Whole(r.size)
  {
    && r.size[f] == size
    && (size > 0 ==> On128(r.addr[f]) && base <= r.addr[f] && r.addr[f] as int + size as int <= base as int + total as int)
    && (size == 0 ==> r.addr[f] == before[f])
  }

  /** Two buffers do not overlap. */
  predicate Clear(f: Field, g: Field, r: Core)
    requires Whole(r.addr) && Whole(r.size)
  {
    r.size[f] > 0 && r.size[g] > 0 ==>
      r.addr[f] as int + r.size[f] as int <= r.addr[g] as int || r.addr[g] as int + r.size[g] as int <= r.addr[f] as int
  }

  predicate Placed(before: map<Field, u32>, r: Core, base: u32, total: u32, frame: u32, coef: u32) {
    && Whole(before) && Whole(r.addr) && Whole(r.size)
    && (forall f: Field :: InPlace(f, before, r, base, total, SizeOf(f, frame, coef)))
    && (forall f: Field, g: Field :: f != g ==> Clear(f, g, r))
  }

  /** The turn of a field among the allocations. */
  function Turn(f: Field): nat {
    match f
    case IspMemFront => 0
    case Gosd => 1
    case IsppStat => 2
    case IspfStat => 3
    case IspbStat => 4
    case Nr3dStat => 5
    case Nr3dFrame => 6
    case Nr3dCoef => 7
    case Nr3dNr2dCoef => 8
    case MemAfterNr3d => 9
    case DrcStat0 => 10
    case MemAfterDrc => 11
    case IspMemEnd => 12
  }

  lemma WantsAt(width: u32, height: u32, f: Field)
    ensures var w := Wants(width, height);
            Turn(f) < |w| && w[Turn(f)] == Want(f, SizeOf(f, FrameSize(width, height), CoefSize(width, height)))
  {
    hide FrameSize, CoefSize;
  }

  lemma TurnsDiffer(f: Field, g: Field)
    requires f != g
    ensures Turn(f) != Turn(g)
  {
  }

  /** The state in which the thirteen allocations begin. */
  predicate Begins(s: Core, width: u32, height: u32) {
    && Whole(s.addr) && Whole(s.size) && TotalFits(width, height)
    && PoolOk(s.pool) && On128(s.pool.base) && s.pool.cursor == 0 && s.pool.total == TotalSize(width, height)
  }

  lemma FieldPlaced(s: Core, width: u32, height: u32, f: Field)
    requires Begins(s, width, height)
    ensures var r := AllocAll(s, Wants(width, height)).core;
            && Whole(r.addr) && Whole(r.size)
            && InPlace(f, s.addr, r, s.pool.base, s.pool.total, SizeOf(f, FrameSize(width, height), CoefSize(width, height)))
  {
    hide FrameSize, CoefSize, TotalSize, TotalFits, PoolOk, AllocAll, Wants, Turn, SizeOf, On128;
    WantsAt(width, height, f);
    EachInside(s, width, height, Turn(f));
  }

  lemma FieldsApart(s: Core, width: u32, height: u32, f: Field, g: Field)
    requires Begins(s, width, height) && f != g
    ensures var r := AllocAll(s, Wants(width, height)).core;
            Whole(r.addr) && Whole(r.size) && Clear(f, g, r)
  {
    FieldPlaced(s, width, height, f);
    FieldPlaced(s, width, height, g);
    hide FrameSize, CoefSize, TotalSize, TotalFits, PoolOk, AllocAll, Wants, Turn, SizeOf, On128;
    var r := AllocAll(s, Wants(width, height)).core;
    if r.size[f] > 0 && r.size[g] > 0 {
      WantsAt(width, height, f);
      WantsAt(width, height, g);
      TurnsDiffer(f, g);
      if Turn(f) < Turn(g) {
        NoneOverlap(s, width, height, Turn(f), Turn(g));
      } else {
        NoneOverlap(s, width, height, Turn(g), Turn(f));
      }
    }
  }

  /** All thirteen are placed in the computed pool. */
  lemma AllPlaced(s: Core, width: u32, height: u32)
    requires Begins(s, width, height)
    ensures var r := AllocAll(s, Wants(width, height));
            r.ok && Placed(s.addr, r.core, s.pool.base, s.pool.total, FrameSize(width, height), CoefSize(width, height))
  {
    PoolSuffices(s, width, height);
    hide FrameSize, CoefSize, TotalSize, TotalFits, AllocAll, Wants, SizeOf, On128, Laid, InPlace, Clear, PoolOk;
    var r := AllocAll(s, Wants(width, height)).core;
    forall f: Field
      ensures InPlace(f, s.addr, r, s.pool.base, s.pool.total, SizeOf(f, FrameSize(width, height), CoefSize(width, height)))
    {
      FieldPlaced(s, width, height, f);
    }
    forall f: Field, g: Field | f != g
      ensures Clear(f, g, r)
    {
      FieldsApart(s, width, height, f, g);
    }
  }

  lemma ZeroesWhole()
    ensures Whole(ZEROES) && forall f: Field :: ZEROES[f] == 0
  {
    forall f: Field
      ensures f in ZEROES
    {
      match f
      case IspMemFront =>
      case Gosd =>
      case IsppStat =>
      case IspfStat =>
      case IspbStat =>
      case Nr3dStat =>
      case Nr3dFrame =>
      case Nr3dCoef =>
      case Nr3dNr2dCoef =>
      case MemAfterNr3d =>
      case DrcStat0 =>
      case MemAfterDrc =>
      case IspMemEnd =>
    }
  }

  /** `isp_core_get_buf_size`. */
  method GetBufSize(width: u32, height: u32, out: array<u32>)
    requires out.Length == 22
    modifies out
    ensures out[..] == BufSize(width, height)
  {
    hide RoundUp8, RoundUp128, Word, BitAnd;
    forall i | 0 <= i < 22 {
      out[i] := 0;
    }
    var mainRow := RoundUp8(Word(width as int * 10 + 7) / 8);
    var subRow := RoundUp8(Word(width as int / 4 * 10 + 7) / 8);
    var quarter: nat := height as int / 4;
    out[0] := Word(height as int * mainRow as int);
    out[1] := Word(quarter * subRow as int);
    out[2] := out[1];
    out[3] := 0x5000;
    out[4] := 0x41a0;
    out[0x14] := 0x200;
    out[0x15] := Word(RoundUp128(out[0]) as int
      + BitAnd(RoundUp128(ISPF_STAT_SIZE) as int + RoundUp128(ISPP_STAT_SIZE) as int + 0xffff, 0xffff_0000)
      + RoundUp128(out[1]) as int * 2 + 0x9400);
  }

  class IspCore {
    var poolBase: u32
    var poolTotal: u32
    var poolCursor: u32
    var addr: map<Field, u32>
    var size: map<Field, u32>

    function State(): Core
      reads this
    {
      Core(Pool(poolBase, poolTotal, poolCursor), addr, size)
    }

    predicate Valid()
      reads this
    {
      Whole(addr) && Whole(size)
    }

    constructor ()
      ensures Valid() && poolBase == poolTotal == poolCursor == 0
      ensures forall f: Field :: addr[f] == 0 && size[f] == 0
    {
      poolBase, poolTotal, poolCursor := 0, 0, 0;
      addr := ZEROES;
      size := ZEROES;
      ZeroesWhole();
    }

    /** `isp_malloc`; `out` is what it stores through its pointer. */
    method IspMalloc(size: u32, align: u32) returns (status: int, out: Option<u32>)
      modifies this`poolCursor
      ensures var g := Malloc(old(State()).pool, size, align);
              State() == old(State()).(pool := g.pool) && out == g.addr && status == (if g.ok then 0 else ERR_MALLOC)
    {
      if size == 0 {
        return 0, None;
      }
      hide BitAnd, Word;
      var mask := Mask(align);
      var term := Term(align);
      var aligned := BitAnd(Word(poolBase as int + poolCursor as int + term as int - 1), mask);
      var poolEnd := Word(poolBase as int + poolTotal as int);
      if poolEnd < Word(size as int + aligned as int) {
        return ERR_MALLOC, None;
      }
      poolCursor := Word(Word(size as int + aligned as int) as int + 0x1_0000_0000 - poolBase as int);
      return 0, Some(aligned);
    }

    /** The `ALLOC` macro, for `wants[k]`. */
    method AllocField(field: Field, size: u32, ghost start: Core, ghost wants: seq<Want>, ghost k: nat) returns (ok: bool)
      requires Valid() && Reached(start, wants, k, State()) && k < |wants| && wants[k] == Want(field, size)
      modifies this
      ensures Valid()
      ensures if ok then Reached(start, wants, k + 1, State()) else AllocAll(start, wants) == Outcome(State(), false)
    {
      ghost var s, w := State(), Want(field, size);
      ReachedNext(start, wants, k, s);
      hide Malloc, AllocAll, Reached;
      var status, out := IspMalloc(size, 0x80);
      if status < 0 {
        return false;
      }
      if out.Some? {
        addr := addr[field := out.value];
      }
      this.size := this.size[field := size];
      return true;
    }

    /** The thirteen allocations. */
    method AllocBuffers(width: u32, height: u32, out: seq<u32>, ghost start: Core) returns (ok: bool)
      requires Valid() && start == State() && |out| == 22 && out == BufSize(width, height)
      modifies this
      ensures Valid() && AllocAll(start, Wants(width, height)) == Outcome(State(), ok)
    {
      ghost var w := Wants(width, height);
      hide Reached, AllocAll, IspCore.Valid, IspCore.State, FrameSize, CoefSize, TotalSize;
      ReachedNone(start, w);
      ok := AllocField(IspMemFront, out[0x11], start, w, 0);
      if !ok { return; }
      ok := AllocField(Gosd, out[0x14], start, w, 1);
      if !ok { return; }
      ok := AllocField(IsppStat, ISPP_STAT_SIZE, start, w, 2);
      if !ok { return; }
      ok := AllocField(IspfStat, ISPF_STAT_SIZE, start, w, 3);
      if !ok { return; }
      ok := AllocField(IspbStat, 0, start, w, 4);
      if !ok { return; }
      ok := AllocField(Nr3dStat, out[3], start, w, 5);
      if !ok { return; }
      ok := AllocField(Nr3dFrame, out[0], start, w, 6);
      if !ok { return; }
      ok := AllocField(Nr3dCoef, out[1], start, w, 7);
      if !ok { return; }
      ok := AllocField(Nr3dNr2dCoef, out[2], start, w, 8);
      if !ok { return; }
      ok := AllocField(MemAfterNr3d, out[0x13], start, w, 9);
      if !ok { return; }
      ok := AllocField(DrcStat0, out[4], start, w, 10);
      if !ok { return; }
      ok := AllocField(MemAfterDrc, out[0x13], start, w, 11);
      if !ok { return; }
      ok := AllocField(IspMemEnd, out[0x12], start, w, 12);
      if !ok { return; }
      ReachedAll(start, w, State());
    }

    /** `buffer_malloc_withname`: `vmm` is the address the kernel returns, if it does. */
    method BufferMalloc(size: u32, vmm: Option<u32>) returns (ok: bool)
      modifies this`poolBase, this`poolTotal
      ensures ok == vmm.Some?
      ensures vmm == None ==> State() == old(State())
      ensures vmm.Some? ==> poolBase == vmm.value && poolTotal == size
    {
      if vmm.Some? {
        poolBase, poolTotal := vmm.value, size;
      }
      return vmm.Some?;
    }

    /** The structure of addresses. */
    method DmaAddrs() returns (d: seq<u32>)
      requires Valid()
      ensures Wired(d, addr)
    {
      d := PutAddrs(addr[Nr3dFrame], addr[Nr3dCoef], addr[Nr3dNr2dCoef], addr[Nr3dStat], addr[DrcStat0], addr[Gosd],
                    addr[IspMemFront], addr[MemAfterNr3d], addr[MemAfterDrc]);
    }

    static method PutAddrs(frame: u32, coef: u32, nr2d: u32, stat: u32, drc: u32, gosd: u32, front: u32, nr3dEnd: u32, drcEnd: u32)
      returns (d: seq<u32>)
      ensures d == seq(6, _ => 0) + [frame, coef, nr2d, stat, drc] + seq(4, _ => 0) + [gosd, 0, 0, front, 0, nr3dEnd, drcEnd]
    {
      var a := new u32[88 / 4](_ => 0);
      a[24 / 4], a[28 / 4], a[32 / 4] := frame, coef, nr2d;
      a[36 / 4], a[40 / 4], a[60 / 4] := stat, drc, gosd;
      a[72 / 4], a[80 / 4], a[84 / 4] := front, nr3dEnd, drcEnd;
      d := a[..];
    }

    /** The three ioctls after the allocations; `dma` is what the driver was sent, if it came to that. */
    method Wire(setStat: bool, setAddrs: bool, getStat: bool) returns (status: int, dma: Option<seq<u32>>)
      requires Valid()
      ensures status == (if setStat && setAddrs && getStat then 0 else FH_ERR_MEM_ALLOC)
      ensures dma.Some? == setStat && (setStat ==> Wired(dma.value, addr))
    {
      hide Wired;
      var d := DmaAddrs();
      if !setStat {
        return FH_ERR_MEM_ALLOC, None;
      }
      dma := Some(d);
      if !setAddrs || !getStat {
        return FH_ERR_MEM_ALLOC, dma;
      }
      return 0, dma;
    }

    /** `isp_core_alloc_buf_addr`. If the total fits a word and the kernel returns an aligned pool, the only
        failures left are those of the ioctls, every buffer is placed in the pool, and the driver is sent the
        addresses of nine of them. */
    method AllocBufAddr(width: u32, height: u32, vmm: Option<u32>, setStat: bool, setAddrs: bool, getStat: bool)
      returns (status: int, dma: Option<seq<u32>>)
      requires Valid()
      modifies this
      ensures Valid()
      ensures vmm == None ==> status == FH_ERR_MEM_ALLOC && State() == old(State()) && dma == None
      ensures vmm.Some? ==>
                var r := AllocAll(Emptied(old(State()), width, height, vmm.value), Wants(width, height));
                && State() == r.core
                && status == (if r.ok && setStat && setAddrs && getStat then 0 else FH_ERR_MEM_ALLOC)
                && dma.Some? == (r.ok && setStat) && (dma.Some? ==> Wired(dma.value, addr))
      ensures vmm.Some? && TotalFits(width, height)
              && On128(vmm.value) && vmm.value as int + TotalSize(width, height) as int < 0x1_0000_0000 ==>
              && (status == 0 <==> setStat && setAddrs && getStat) && dma.Some? == setStat
              && Placed(old(addr), State(), vmm.value, TotalSize(width, height), FrameSize(width, height), CoefSize(width, height))
    {
      hide Wired, Placed, Reached, AllocAll, FrameSize, CoefSize, TotalSize, TotalFits, Wants;
      var bufsz := new u32[22];
      GetBufSize(width, height, bufsz);
      var out := bufsz[..];
      var ok := BufferMalloc(out[0x15], vmm);
      if !ok {
        return FH_ERR_MEM_ALLOC, None;
      }
      poolCursor := 0;
      if poolTotal < out[0x15] {
        return FH_ERR_MEM_ALLOC, None;
      }
      ghost var start := State();
      if TotalFits(width, height) && On128(vmm.value) && vmm.value as int + TotalSize(width, height) as int < 0x1_0000_0000 {
        AllPlaced(start, width, height);
      }
      ok := AllocBuffers(width, height, out, start);
      if !ok {
        return FH_ERR_MEM_ALLOC, None;
      }
      status, dma := Wire(setStat, setAddrs, getStat);
    }
  }

  /** A core with a new pool and nothing cut from it yet. */
  function Emptied(s: Core, width: u32, height: u32, base: u32): Core {
    s.(pool := Pool(base, TotalSize(width, height), 0))
  }

  /** `out` as `isp_core_get_buf_size` fills it. */
  function BufSize(width: u32, height: u32): (out: seq<u32>)
    ensures |out| == 22
  {
    [FrameSize(width, height), CoefSize(width, height), CoefSize(width, height), 0x5000, 0x41a0, 0, 0, 0, 0, 0, 0, 0, 0, 0, 0, 0, 0,
     0, 0, 0, 0x200, TotalSize(width, height)]
  }

  /** The first `k` allocations succeed and lead to `s`. */
  predicate Reached(start: Core, wants: seq<Want>, k: nat, s: Core) {
    k <= |wants| && AllocAll(start, wants[..k]) == Outcome(s, true)
  }

  lemma ReachedNext(start: Core, wants: seq<Want>, k: nat, s: Core)
    requires Reached(start, wants, k, s) && k < |wants|
    ensures var r := Alloc(s, wants[k]);
            if r.ok then Reached(start, wants, k + 1, r.core) else AllocAll(start, wants) == Outcome(s, false)
  {
    AllocAppend(start, wants[..k], wants[k..]);
    assert wants[..k] + wants[k..] == wants;
    AllocAppend(start, wants[..k], [wants[k]]);
    assert wants[..k + 1] == wants[..k] + [wants[k]] && [wants[k]][1..] == [];
    hide Malloc;
  }

  lemma ReachedNone(start: Core, wants: seq<Want>)
    ensures Reached(start, wants, 0, start)
  {
  }

  lemma ReachedAll(start: Core, wants: seq<Want>, s: Core)
    requires Reached(start, wants, |wants|, s)
    ensures AllocAll(start, wants) == Outcome(s, true)
  {
    assert wants[..|wants|] == wants;
  }
}

/** The ISP's DMA pool: a bump allocator, the size computed for it, and the thirteen buffers cut from it. */
module IspPool {
  import opened Bytes
  import opened Log2
  import opened Bits

  /** Arithmetic on 32-bit words. */
  function Word(x: nat): (w: u32)
    ensures x < 0x1_0000_0000 ==> w as int == x
  {
    x % 0x1_0000_0000
  }

  /** The least multiple of `t` that is at least `x`. */
  function RoundUp(x: nat, t: nat): nat
    requires t >= 1
  {
    (x + t - 1) - (x + t - 1) % t
  }

  lemma RoundUpIs(x: nat, t: nat)
    requires t >= 1
    ensures x <= RoundUp(x, t) < x + t && RoundUp(x, t) % t == 0
  {
    var q := (x + t - 1) / t;
    assert x + t - 1 == t * q + (x + t - 1) % t;
    assert RoundUp(x, t) == t * q;
    ModIs(t * q, t, q, 0);
  }

  // ----- the allocator -----

  /** `pool_phys_base`, `pool_total_size` and `pool_cursor`. */
  datatype Pool = Pool(base: u32, total: u32, cursor: u32)

  /** The pool's end is a word, and the cursor is in it. */
  predicate PoolOk(p: Pool) {
    p.base as int + p.total as int < 0x1_0000_0000 && p.cursor <= p.total
  }

  /** No alignment, or a power of two. */
  ghost predicate Alignment(align: u32) {
    align == 0 || exists k: nat :: k <= 31 && align as int == Pow2(k)
  }

  function Term(align: u32): (t: u32)
    ensures t >= 1
  {
    if align == 0 then 1 else align
  }

  function Mask(align: u32): u32 {
    if align == 0 then 0xffff_ffff else 0xffff_ffff - (align as int - 1)
  }

  /** The cursor's address, aligned up. */
  function Aligned(p: Pool, align: u32): u32 {
    BitAnd(Word(p.base as int + p.cursor as int + Term(align) as int - 1), Mask(align))
  }

  /** One allocation: the pool after it, the address if one is handed out, and whether it succeeded. */
  datatype Grant = Grant(pool: Pool, addr: Option<u32>, ok: bool)

  function Malloc(p: Pool, size: u32, align: u32): Grant {
    var aligned := Aligned(p, align);
    if size == 0 then
      Grant(p, None, true)
    else if Word(p.base as int + p.total as int) < Word(size as int + aligned as int) then
      Grant(p, None, false)
    else
      Grant(p.(cursor := Word(Word(size as int + aligned as int) as int + 0x1_0000_0000 - p.base as int)), Some(aligned), true)
  }

  /** The sums `isp_malloc` takes stay within a word. */
  predicate NoWrap(p: Pool, size: u32, align: u32) {
    && p.base as int + p.cursor as int + Term(align) as int - 1 < 0x1_0000_0000
    && RoundUp(p.base as int + p.cursor as int, Term(align)) + size as int < 0x1_0000_0000
  }

  lemma MaskIs(x: u32, align: u32)
    requires Alignment(align)
    ensures BitAnd(x, Mask(align)) == x as int - x as int % Term(align) as int
  {
    Pow2Of32();
    hide BitAnd;
    if align == 0 {
      BitAndMask(x, 0, 32);
    } else {
      var k: nat :| k <= 31 && align as int == Pow2(k);
      hide Pow2;
      BitAndMask(x, k, 32);
    }
  }

  /** Masking is rounding down to the alignment, of a sum that may have wrapped. */
  lemma AlignedIs(p: Pool, align: u32)
    requires Alignment(align)
    ensures var s := Word(p.base as int + p.cursor as int + Term(align) as int - 1) as int;
            Aligned(p, align) as int == s - s % Term(align) as int
  {
    hide BitAnd, Mask, Alignment, Word;
    MaskIs(Word(p.base as int + p.cursor as int + Term(align) as int - 1), align);
  }

  lemma AlignedRounds(p: Pool, align: u32)
    requires Alignment(align) && p.base as int + p.cursor as int + Term(align) as int - 1 < 0x1_0000_0000
    ensures Aligned(p, align) as int == RoundUp(p.base as int + p.cursor as int, Term(align))
  {
    AlignedIs(p, align);
    hide Aligned, Alignment, Term;
  }

  /** Without wrapping, an allocation succeeds exactly when the aligned buffer ends inside the pool. */
  lemma MallocIs(p: Pool, size: u32, align: u32)
    requires PoolOk(p) && Alignment(align) && size > 0 && NoWrap(p, size, align)
    ensures var at := RoundUp(p.base as int + p.cursor as int, Term(align));
            Malloc(p, size, align) ==
            if at + size as int <= p.base as int + p.total as int
            then Grant(p.(cursor := at + size as int - p.base as int), Some(at), true)
            else Grant(p, None, false)
  {
    AlignedRounds(p, align);
    RoundUpIs(p.base as int + p.cursor as int, Term(align));
    hide Aligned, Alignment, Term, RoundUp, Malloc;
    MallocAt(p, size, align, RoundUp(p.base as int + p.cursor as int, Term(align)));
  }

  lemma MallocAt(p: Pool, size: u32, align: u32, at: nat)
    requires PoolOk(p) && size > 0 && Aligned(p, align) as int == at
    requires p.base as int <= at && at + size as int < 0x1_0000_0000
    ensures Malloc(p, size, align) ==
            if at + size as int <= p.base as int + p.total as int
            then Grant(p.(cursor := at + size as int - p.base as int), Some(at), true)
            else Grant(p, None, false)
  {
    hide Aligned;
    WordPlain(at + size as int);
    WordPlain(p.base as int + p.total as int);
    if at + size as int <= p.base as int + p.total as int {
      WordAround(at + size as int - p.base as int);
    }
    hide Word;
  }

  lemma WordPlain(x: nat)
    requires x < 0x1_0000_0000
    ensures Word(x) as int == x
  {
  }

  lemma WordAround(x: nat)
    requires x < 0x1_0000_0000
    ensures Word(x + 0x1_0000_0000) as int == x
  {
  }

  /** The address handed out is inside the pool and past the cursor exactly when nothing wrapped. */
  lemma InsideExactly(p: Pool, size: u32, align: u32)
    requires PoolOk(p) && Alignment(align) && size > 0 && Malloc(p, size, align).ok
    ensures var at := Malloc(p, size, align).addr.value as int;
            p.base as int + p.cursor as int <= at && at + size as int <= p.base as int + p.total as int
            <==> NoWrap(p, size, align)
  {
    var from, t := p.base as int + p.cursor as int, Term(align) as int;
    if NoWrap(p, size, align) {
      MallocIs(p, size, align);
      RoundUpIs(from, Term(align));
      hide Malloc, Aligned, Alignment, RoundUp, Term;
    } else if from + t - 1 < 0x1_0000_0000 {
      AlignedRounds(p, align);
      hide Aligned, Alignment, RoundUp, Term, Word;
    } else {
      AlignedIs(p, align);
      WordAround(from + t - 1 - 0x1_0000_0000);
      hide Aligned, Alignment, RoundUp, Word;
    }
  }

  /** A request of nothing, and one that fails, change nothing and hand out nothing; no other does. */
  lemma UnchangedExactly(p: Pool, size: u32, align: u32)
    requires PoolOk(p) && Alignment(align) && NoWrap(p, size, align)
    ensures var g := Malloc(p, size, align);
            (g.pool == p <==> size == 0 || !g.ok) && (g.addr == None <==> size == 0 || !g.ok) && g.pool.cursor >= p.cursor
  {
    RoundUpIs(p.base as int + p.cursor as int, Term(align));
    if size > 0 {
      MallocIs(p, size, align);
    }
    hide Malloc, Alignment, RoundUp;
  }

  // ----- any sequence of requests -----

  datatype Request = Request(size: u32, align: u32)
  datatype Buffer = Buffer(addr: u32, size: u32, align: u32)

  function After(p: Pool, requests: seq<Request>): Pool
    decreases |requests|
  {
    if requests == [] then p
    else After(Malloc(p, requests[0].size, requests[0].align).pool, requests[1..])
  }

  /** The buffers handed out, in order. */
  function Buffers(p: Pool, requests: seq<Request>): seq<Buffer>
    decreases |requests|
  {
    if requests == [] then [] else
      var g := Malloc(p, requests[0].size, requests[0].align);
      Handed(g, requests[0]) + Buffers(g.pool, requests[1..])
  }

  /** A request that is granted does not make the sums wrap. */
  predicate Unwrapped(p: Pool, r: Request) {
    r.size > 0 && Malloc(p, r.size, r.align).ok ==> NoWrap(p, r.size, r.align)
  }

  /** `b` is aligned, and lies from `from` up to `to`. */
  predicate Within(b: Buffer, from: nat, to: nat) {
    from <= b.addr as int && b.addr as int + b.size as int <= to && b.size > 0 && b.addr % Term(b.align) == 0
  }

  /** What one request does. */
  lemma OneRequest(p: Pool, r: Request)
    requires PoolOk(p) && Alignment(r.align) && Unwrapped(p, r)
    ensures var g := Malloc(p, r.size, r.align);
            && PoolOk(g.pool) && g.pool.base == p.base && g.pool.total == p.total && g.pool.cursor >= p.cursor
            && (g.addr.Some? ==> Within(Buffer(g.addr.value, r.size, r.align), p.base as int + p.cursor as int, p.base as int + g.pool.cursor as int)
                                 && g.addr.value as int + r.size as int == p.base as int + g.pool.cursor as int)
            && (g.addr.None? ==> g.pool == p)
  {
    if r.size > 0 && Malloc(p, r.size, r.align).ok {
      RoundUpIs(p.base as int + p.cursor as int, Term(r.align));
      MallocIs(p, r.size, r.align);
      hide Malloc, Alignment, RoundUp;
    }
  }

  /** `bs` are aligned, between `from` and `to`, each past the ones before it. */
  predicate Packed(bs: seq<Buffer>, from: nat, to: nat)
    decreases |bs|
  {
    if bs == [] then from <= to
    else Within(bs[0], from, to) && Packed(bs[1..], bs[0].addr as int + bs[0].size as int, to)
  }

  /** What `Packed` says of any one buffer, and of any two. */
  lemma {:induction false} PackedMeans(bs: seq<Buffer>, from: nat, to: nat, i: nat, j: nat)
    requires Packed(bs, from, to) && i < j < |bs|
    ensures Within(bs[i], from, to) && Within(bs[j], from, to)
    ensures bs[i].addr as int + bs[i].size as int <= bs[j].addr as int
    decreases |bs|
  {
    if i > 0 {
      PackedMeans(bs[1..], bs[0].addr as int + bs[0].size as int, to, i - 1, j - 1);
    } else {
      PackedAt(bs[1..], bs[0].addr as int + bs[0].size as int, to, j - 1);
    }
  }

  lemma {:induction false} PackedAt(bs: seq<Buffer>, from: nat, to: nat, i: nat)
    requires Packed(bs, from, to) && i < |bs|
    ensures Within(bs[i], from, to)
    decreases |bs|
  {
    if i > 0 {
      PackedAt(bs[1..], bs[0].addr as int + bs[0].size as int, to, i - 1);
    }
  }

  ghost predicate Aligns(requests: seq<Request>)
    decreases |requests|
  {
    requests == [] || (Alignment(requests[0].align) && Aligns(requests[1..]))
  }

  /** No granted request wraps, each looked at in the pool the ones before it leave. */
  predicate AllUnwrapped(p: Pool, requests: seq<Request>)
    decreases |requests|
  {
    requests == [] ||
    (Unwrapped(p, requests[0]) && AllUnwrapped(Malloc(p, requests[0].size, requests[0].align).pool, requests[1..]))
  }

  /** What such a run leaves of the pool. */
  lemma {:induction false} AfterKeeps(p: Pool, requests: seq<Request>)
    requires PoolOk(p) && Aligns(requests) && AllUnwrapped(p, requests)
    ensures var q := After(p, requests);
            PoolOk(q) && q.cursor >= p.cursor && q.base == p.base && q.total == p.total
    decreases |requests|
  {
    if requests != [] {
      hide Malloc, Alignment, Unwrapped, PoolOk, Within;
      OneRequest(p, requests[0]);
      AfterKeeps(Malloc(p, requests[0].size, requests[0].align).pool, requests[1..]);
    }
  }

  /** Over any run of requests with power-of-two alignment whose grants do not wrap, every buffer is aligned,
      inside the pool and clear of the others, and the cursor only moves on. */
  lemma {:induction false} RunOfRequests(p: Pool, requests: seq<Request>)
    requires PoolOk(p) && Aligns(requests) && AllUnwrapped(p, requests)
    ensures var q := After(p, requests);
            && PoolOk(q) && q.cursor >= p.cursor && q.base == p.base && q.total == p.total
            && Packed(Buffers(p, requests), p.base as int + p.cursor as int, p.base as int + q.cursor as int)
    decreases |requests|
  {
    hide Malloc, Alignment, Unwrapped, PoolOk, Within, Packed;
    AfterKeeps(p, requests);
    if requests == [] {
      PackedNone(p.base as int + p.cursor as int);
    } else {
      var r, rest := requests[0], requests[1..];
      var g := Malloc(p, r.size, r.align);
      OneRequest(p, r);
      RunOfRequests(g.pool, rest);
      hide Aligns, AllUnwrapped;
      PackedHanded(g, r, Buffers(g.pool, rest), p.base as int + p.cursor as int, p.base as int + After(g.pool, rest).cursor as int);
    }
  }

  lemma PackedNone(at: nat)
    ensures Packed([], at, at)
  {
  }

  /** And only then: a grant that wraps hands out a buffer that is not in the pool past the cursor. */
  lemma {:induction false} PackedExactly(p: Pool, requests: seq<Request>)
    requires PoolOk(p) && Aligns(requests)
    ensures Packed(Buffers(p, requests), p.base as int + p.cursor as int, p.base as int + p.total as int)
       <==> AllUnwrapped(p, requests)
    decreases |requests|
  {
    hide Malloc, Alignment, Unwrapped, Within, NoWrap;
    var from, to := p.base as int + p.cursor as int, p.base as int + p.total as int;
    if requests != [] {
      hide PoolOk, Packed;
      var r, rest := requests[0], requests[1..];
      var g := Malloc(p, r.size, r.align);
      if Unwrapped(p, r) {
        OneRequest(p, r);
        PackedExactly(g.pool, rest);
        CursorInside(g.pool);
        hide Aligns, AllUnwrapped;
        PackedHanded(g, r, Buffers(g.pool, rest), from, to);
      } else {
        WrappedGrant(p, r);
        NotPacked(g, r, Buffers(g.pool, rest), from, to);
      }
    }
  }

  lemma CursorInside(p: Pool)
    requires PoolOk(p)
    ensures p.cursor <= p.total
  {
  }

  lemma WrappedGrant(p: Pool, r: Request)
    requires PoolOk(p) && Alignment(r.align) && !Unwrapped(p, r)
    ensures var g := Malloc(p, r.size, r.align);
            g.addr.Some? && !Within(Buffer(g.addr.value, r.size, r.align), p.base as int + p.cursor as int, p.base as int + p.total as int)
  {
    hide Alignment, NoWrap;
    InsideExactly(p, r.size, r.align);
  }

  lemma NotPacked(g: Grant, r: Request, later: seq<Buffer>, from: nat, to: nat)
    requires g.addr.Some? && !Within(Buffer(g.addr.value, r.size, r.align), from, to)
    ensures !Packed(Handed(g, r) + later, from, to)
  {
    hide Within;
    assert (Handed(g, r) + later)[0] == Buffer(g.addr.value, r.size, r.align);
  }

  /** The buffer handed out first is packed in front of the others exactly when they are packed behind it. */
  lemma PackedHanded(g: Grant, r: Request, later: seq<Buffer>, from: nat, to: nat)
    requires g.pool.base as int + g.pool.cursor as int <= to
    requires g.addr.Some? ==> Within(Buffer(g.addr.value, r.size, r.align), from, g.pool.base as int + g.pool.cursor as int)
                              && g.addr.value as int + r.size as int == g.pool.base as int + g.pool.cursor as int
    requires g.addr.None? ==> g.pool.base as int + g.pool.cursor as int == from
    ensures Packed(Handed(g, r) + later, from, to) <==> Packed(later, g.pool.base as int + g.pool.cursor as int, to)
  {
    if g.addr.Some? {
      var b := Buffer(g.addr.value, r.size, r.align);
      assert ([b] + later)[0] == b && ([b] + later)[1..] == later;
    } else {
      assert [] + later == later;
    }
  }

  function Handed(g: Grant, r: Request): seq<Buffer> {
    if g.addr.Some? then [Buffer(g.addr.value, r.size, r.align)] else []
  }
}

/** RTP timestamps, and the frames `access_units` of the comparison tool makes of them. */
module Timestamps {
  import opened Bytes
  import opened Rtp
  import opened Session
  import RT = RtpRoundTrip

  // ----- ticks -----

  /** The products stay within 64 bits. */
  predicate Fits(pts: u64, base: u32) {
    9 * (pts + base as int) < 0x1_0000_0000_0000_0000
  }

  /** Ticks at 90 kHz from one instant to a later one, the last one counted when the fractions carry. */
  function Elapsed(p: u64, q: u64, base: u32): int
    requires p <= q
  {
    var carry := if 9 * (p + base as int) % 100 + 9 * (q - p) % 100 >= 100 then 1 else 0;
    9 * (q - p) / 100 + carry
  }

  lemma Carry(a: nat, d: nat)
    ensures (a + d) / 100 == a / 100 + d / 100 + (if a % 100 + d % 100 >= 100 then 1 else 0)
  {
  }

  lemma WrappedDifference(a: nat, b: nat)
    requires a <= b
    ensures (b % 0x1_0000_0000 - a % 0x1_0000_0000) % 0x1_0000_0000 == (b - a) % 0x1_0000_0000
  {
  }

  lemma TicksIs(pts: u64, base: u32)
    requires Fits(pts, base)
    ensures Ticks(pts, base) as int == 9 * (pts + base as int) / 100 % 0x1_0000_0000
  {
    var sum := pts + base as int;
    assert sum % 0x1_0000_0000_0000_0000 == sum;
    assert sum * 9 == 9 * sum;
  }

  /** Timestamps do not drift: of any two frames, however many are between, the difference is the time
      between them in ticks, rounded down or one more. */
  lemma NeverDrift(p: u64, q: u64, base: u32)
    requires p <= q && Fits(q, base)
    ensures (Ticks(q, base) as int - Ticks(p, base) as int) % 0x1_0000_0000 == Elapsed(p, q, base) % 0x1_0000_0000
    ensures 9 * (q - p) / 100 <= Elapsed(p, q, base) <= 9 * (q - p) / 100 + 1
    ensures (q - p) % 100 == 0 ==> 100 * Elapsed(p, q, base) == 9 * (q - p)
  {
    var a, d := 9 * (p + base as int), 9 * (q - p);
    TicksIs(p, base);
    TicksIs(q, base);
    assert 9 * (q + base as int) == a + d;
    hide Ticks;
    Carry(a, d);
    WrappedDifference(a / 100, (a + d) / 100);
    if (q - p) % 100 == 0 {
      Hundreds(q - p);
    }
  }

  lemma Hundreds(d: nat)
    requires d % 100 == 0
    ensures 9 * d % 100 == 0 && 100 * (9 * d / 100) == 9 * d
  {
    var h := d / 100;
    assert d == 100 * h && 9 * d == 100 * (9 * h);
  }

  /** Two frames have one timestamp exactly when a multiple of 2^32 ticks separates them. */
  lemma SameTimestampExactly(p: u64, q: u64, base: u32)
    requires p <= q && Fits(q, base)
    ensures Ticks(p, base) == Ticks(q, base) <==> Elapsed(p, q, base) % 0x1_0000_0000 == 0
  {
    NeverDrift(p, q, base);
    hide Ticks, Elapsed;
    SameResidue(Ticks(p, base), Ticks(q, base));
  }

  lemma SameResidue(a: u32, b: u32)
    ensures (b as int - a as int) % 0x1_0000_0000 == 0 <==> a == b
  {
  }

  /** 12 microseconds and more, and less than 2^32 ticks, tell frames apart. */
  predicate Apart(p: u64, q: u64) {
    p as int + 12 <= q as int && 9 * (q - p) / 100 + 1 < 0x1_0000_0000
  }

  lemma ApartDiffer(p: u64, q: u64, base: u32)
    requires Apart(p, q) && Fits(q, base)
    ensures Ticks(p, base) != Ticks(q, base)
  {
    SameTimestampExactly(p, q, base);
    hide Ticks;
  }

  /** 11 microseconds do not: two such frames can share a timestamp. */
  lemma ElevenCanCollide()
    ensures Ticks(0, 0) == Ticks(11, 0)
  {
  }

  // ----- the regrouping -----

  /** What `access_units` makes of packets with one timestamp: their markers and payloads. */
  datatype Group = Group(ts: u32, packets: seq<Fragment>)

  function AddPacket(gs: seq<Group>, p: Packet): seq<Group> {
    var f := Fragment(p.marker, p.payload);
    if gs != [] && gs[|gs| - 1].ts == p.ts
    then gs[..|gs| - 1] + [Group(p.ts, gs[|gs| - 1].packets + [f])]
    else gs + [Group(p.ts, [f])]
  }

  function AddAll(gs: seq<Group>, ps: seq<Packet>): seq<Group>
    decreases |ps|
  {
    if ps == [] then gs else AddAll(AddPacket(gs, ps[0]), ps[1..])
  }

  lemma {:induction false} AddAllAppend(gs: seq<Group>, a: seq<Packet>, b: seq<Packet>)
    ensures AddAll(gs, a + b) == AddAll(AddAll(gs, a), b)
    decreases |a|
  {
    if a == [] {
      assert a + b == b;
    } else {
      assert (a + b)[1..] == a[1..] + b;
      AddAllAppend(AddPacket(gs, a[0]), a[1..], b);
    }
  }

  /** `access_units`. */
  method AccessUnits(packets: seq<Packet>) returns (units: seq<Group>)
    ensures units == AddAll([], packets)
  {
    units := [];
    for i := 0 to |packets|
      invariant AddAll(units, packets[i..]) == AddAll([], packets)
    {
      var p := packets[i];
      assert packets[i..][1..] == packets[i + 1..];
      if units != [] && units[|units| - 1].ts == p.ts {
        var u := units[|units| - 1];
        units := units[..|units| - 1] + [u.(packets := u.packets + [Fragment(p.marker, p.payload)])];
      } else {
        units := units + [Group(p.ts, [Fragment(p.marker, p.payload)])];
      }
    }
  }

  // ----- frames -----

  /** Frames on the wire: each one's packets under one timestamp, numbered on from `q`. */
  function Sent(frames: seq<Group>, q: u16, ssrc: u32): seq<Packet> {
    if frames == [] then []
    else Stamp(frames[0].packets, PT_H264, q, frames[0].ts, ssrc)
         + Sent(frames[1..], Advance(q, |frames[0].packets|), ssrc)
  }

  predicate Distinct(frames: seq<Group>) {
    |frames| <= 1 || (frames[0].ts != frames[1].ts && Distinct(frames[1..]))
  }

  /** A timestamp other than the last group's begins a new group. */
  predicate Fresh(gs: seq<Group>, ts: u32) {
    gs == [] || gs[|gs| - 1].ts != ts
  }

  lemma {:induction false} MoreOfSame(gs: seq<Group>, g: Group, fs: seq<Fragment>, q: u16, ssrc: u32)
    ensures AddAll(gs + [g], Stamp(fs, PT_H264, q, g.ts, ssrc)) == gs + [Group(g.ts, g.packets + fs)]
    decreases |fs|
  {
    if fs == [] {
      assert g.packets + fs == g.packets;
    } else {
      var g' := Group(g.ts, g.packets + [fs[0]]);
      var p := Packet(fs[0].marker, PT_H264, q, g.ts, ssrc, fs[0].payload);
      assert (gs + [g])[..|gs|] == gs;
      assert AddPacket(gs + [g], p) == gs + [g'];
      MoreOfSame(gs, g', fs[1..], Advance(q, 1), ssrc);
      assert g'.packets + fs[1..] == g.packets + fs;
      var rest := Stamp(fs[1..], PT_H264, Advance(q, 1), g.ts, ssrc);
      assert ([p] + rest)[1..] == rest;
    }
  }

  /** One frame's packets become one new group, or join the last. */
  lemma OneFrame(gs: seq<Group>, f: Group, q: u16, ssrc: u32)
    requires f.packets != []
    ensures var r := AddAll(gs, Stamp(f.packets, PT_H264, q, f.ts, ssrc));
            && r != [] && r[|r| - 1].ts == f.ts
            && (if Fresh(gs, f.ts) then r == gs + [f] else |r| == |gs|)
  {
    if Fresh(gs, f.ts) {
      var x := f.packets[0];
      var p := Packet(x.marker, PT_H264, q, f.ts, ssrc, x.payload);
      var rest := Stamp(f.packets[1..], PT_H264, Advance(q, 1), f.ts, ssrc);
      assert ([p] + rest)[1..] == rest;
      MoreOfSame(gs, Group(f.ts, [x]), f.packets[1..], Advance(q, 1), ssrc);
      assert [x] + f.packets[1..] == f.packets;
    } else {
      assert gs == gs[..|gs| - 1] + [gs[|gs| - 1]];
      MoreOfSame(gs[..|gs| - 1], gs[|gs| - 1], f.packets, q, ssrc);
    }
  }

  predicate NonEmpty(frames: seq<Group>) {
    forall f | f in frames :: f.packets != []
  }

  lemma {:induction false} AllFrames(gs: seq<Group>, frames: seq<Group>, q: u16, ssrc: u32)
    requires NonEmpty(frames)
    ensures var r := AddAll(gs, Sent(frames, q, ssrc));
            if Distinct(frames) && (frames == [] || Fresh(gs, frames[0].ts)) then r == gs + frames
            else |r| < |gs| + |frames|
    ensures |AddAll(gs, Sent(frames, q, ssrc))| <= |gs| + |frames|
    decreases |frames|
  {
    if frames != [] {
      var f, first := frames[0], Stamp(frames[0].packets, PT_H264, q, frames[0].ts, ssrc);
      assert f in frames && NonEmpty(frames[1..]);
      hide AddAll, Stamp, NonEmpty, Advance, Distinct, Fresh;
      var next := Advance(q, |f.packets|);
      OneFrame(gs, f, q, ssrc);
      AddAllAppend(gs, first, Sent(frames[1..], next, ssrc));
      AllFrames(AddAll(gs, first), frames[1..], next, ssrc);
      MoreFrames(gs, AddAll(gs, first), frames, AddAll(AddAll(gs, first), Sent(frames[1..], next, ssrc)));
    }
  }

  lemma MoreFrames(gs: seq<Group>, mid: seq<Group>, frames: seq<Group>, r: seq<Group>)
    requires frames != [] && mid != [] && mid[|mid| - 1].ts == frames[0].ts
    requires if Fresh(gs, frames[0].ts) then mid == gs + [frames[0]] else |mid| == |gs|
    requires |r| <= |mid| + |frames| - 1
    requires if Distinct(frames[1..]) && (frames[1..] == [] || Fresh(mid, frames[1..][0].ts)) then r == mid + frames[1..]
             else |r| < |mid| + |frames| - 1
    ensures |r| <= |gs| + |frames|
    ensures if Distinct(frames) && Fresh(gs, frames[0].ts) then r == gs + frames else |r| < |gs| + |frames|
  {
    if Fresh(gs, frames[0].ts) {
      assert gs + [frames[0]] + frames[1..] == gs + frames;
    }
  }

  /** Regrouping recovers the frames exactly when no two neighbours share a timestamp. */
  lemma RegroupExactly(frames: seq<Group>, q: u16, ssrc: u32)
    requires NonEmpty(frames)
    ensures AddAll([], Sent(frames, q, ssrc)) == frames <==> Distinct(frames)
  {
    AllFrames([], frames, q, ssrc);
    assert [] + frames == frames;
  }

  // ----- frames of NAL units -----

  /** An access unit as it is pushed: every NAL unit with the same time, the last one flagged. */
  datatype Frame = Frame(pts: u64, nals: seq<Nal>)

  function Units(nals: seq<Nal>, ts: u32): seq<RT.Unit>
    decreases |nals|
  {
    if nals == [] then [] else [RT.Unit(nals[0], |nals| == 1, ts)] + Units(nals[1..], ts)
  }

  function Fragments(nals: seq<Nal>): seq<Fragment>
    decreases |nals|
  {
    if nals == [] then [] else Packetize(nals[0], |nals| == 1) + Fragments(nals[1..])
  }

  /** All NAL units of the frames, as they are pushed. */
  function AllUnits(frames: seq<Frame>, base: u32): seq<RT.Unit>
    decreases |frames|
  {
    if frames == [] then [] else Units(frames[0].nals, Ticks(frames[0].pts, base)) + AllUnits(frames[1..], base)
  }

  function Groups(frames: seq<Frame>, base: u32): (gs: seq<Group>)
    ensures |gs| == |frames|
    decreases |frames|
  {
    if frames == [] then []
    else [Group(Ticks(frames[0].pts, base), Fragments(frames[0].nals))] + Groups(frames[1..], base)
  }

  lemma {:induction false} StampAppend(a: seq<Fragment>, b: seq<Fragment>, q: u16, ts: u32, ssrc: u32)
    ensures Stamp(a + b, PT_H264, q, ts, ssrc) ==
            Stamp(a, PT_H264, q, ts, ssrc) + Stamp(b, PT_H264, Advance(q, |a|), ts, ssrc)
    decreases |a|
  {
    hide Advance;
    if a == [] {
      AdvanceAdd(q, 0, 0);
      assert a + b == b;
    } else {
      AdvanceAdd(q, 1, |a| - 1);
      assert (a + b)[1..] == a[1..] + b;
      StampAppend(a[1..], b, Advance(q, 1), ts, ssrc);
    }
  }

  /** The NAL units of one frame make one run of packets under its timestamp. */
  lemma {:induction false} OneTimestamp(nals: seq<Nal>, more: seq<RT.Unit>, q: u16, ts: u32, ssrc: u32)
    ensures RT.Stream(Units(nals, ts) + more, q, ssrc) ==
            Stamp(Fragments(nals), PT_H264, q, ts, ssrc) + RT.Stream(more, Advance(q, |Fragments(nals)|), ssrc)
    decreases |nals|
  {
    hide Advance, Packetize, Stamp;
    if nals == [] {
      AdvanceAdd(q, 0, 0);
      assert Units(nals, ts) + more == more;
      assert Stamp([], PT_H264, q, ts, ssrc) == [] by {
        StampNone(q, ts, ssrc);
      }
    } else {
      var u, rest := RT.Unit(nals[0], |nals| == 1, ts), Units(nals[1..], ts);
      var fs := Packetize(nals[0], |nals| == 1);
      assert [u] + rest + more == [u] + (rest + more);
      RT.StreamCons(u, rest + more, q, ssrc);
      OneTimestamp(nals[1..], more, Advance(q, |fs|), ts, ssrc);
      StampAppend(fs, Fragments(nals[1..]), q, ts, ssrc);
      AdvanceAdd(q, |fs|, |Fragments(nals[1..])|);
    }
  }

  lemma StampNone(q: u16, ts: u32, ssrc: u32)
    ensures Stamp([], PT_H264, q, ts, ssrc) == []
  {
  }

  lemma {:induction false} FramesAreSent(frames: seq<Frame>, base: u32, q: u16, ssrc: u32)
    ensures RT.Stream(AllUnits(frames, base), q, ssrc) == Sent(Groups(frames, base), q, ssrc)
    decreases |frames|
  {
    if frames != [] {
      hide Advance, Stamp, Ticks, RT.Stream, Units, Fragments;
      var f, ts := frames[0], Ticks(frames[0].pts, base);
      var rest, next := Groups(frames[1..], base), Advance(q, |Fragments(frames[0].nals)|);
      OneTimestamp(f.nals, AllUnits(frames[1..], base), q, ts, ssrc);
      FramesAreSent(frames[1..], base, next, ssrc);
      assert Groups(frames, base)[1..] == rest;
    }
  }

  /** Consecutive frames differ in timestamp. */
  predicate Ticking(frames: seq<Frame>, base: u32) {
    forall i, j | 0 <= i < |frames| && 0 <= j < |frames| && j == i + 1 ::
      Ticks(frames[i].pts, base) != Ticks(frames[j].pts, base)
  }

  lemma {:induction false} DistinctIsTicking(frames: seq<Frame>, base: u32)
    ensures Distinct(Groups(frames, base)) <==> Ticking(frames, base)
    decreases |frames|
  {
    hide Ticks, Fragments;
    var gs := Groups(frames, base);
    if |frames| > 1 {
      DistinctIsTicking(frames[1..], base);
      assert gs[1..] == Groups(frames[1..], base) && gs[1] == Groups(frames[1..], base)[0];
      TickingRest(frames, base);
    }
  }

  lemma TickingRest(frames: seq<Frame>, base: u32)
    requires |frames| > 1
    ensures Ticking(frames, base) <==>
            Ticks(frames[0].pts, base) != Ticks(frames[1].pts, base) && Ticking(frames[1..], base)
  {
    hide Ticks;
    var rest := frames[1..];
    if Ticking(frames, base) {
      forall i, j | 0 <= i < |rest| && 0 <= j < |rest| && j == i + 1
        ensures Ticks(rest[i].pts, base) != Ticks(rest[j].pts, base)
      {
        assert rest[i] == frames[i + 1] && rest[j] == frames[j + 1];
      }
    }
    if Ticks(frames[0].pts, base) != Ticks(frames[1].pts, base) && Ticking(rest, base) {
      forall i, j | 0 <= i < |frames| && 0 <= j < |frames| && j == i + 1
        ensures Ticks(frames[i].pts, base) != Ticks(frames[j].pts, base)
      {
        if i > 0 {
          assert rest[i - 1] == frames[i] && rest[j - 1] == frames[j];
        }
      }
    }
  }

  lemma {:induction false} GroupsNonEmpty(frames: seq<Frame>, base: u32)
    requires forall f | f in frames :: f.nals != []
    ensures NonEmpty(Groups(frames, base))
    decreases |frames|
  {
    hide Ticks;
    if frames != [] {
      assert frames[0] in frames && Fragments(frames[0].nals) != [] by {
        if |frames[0].nals[0]| > MAX_PAYLOAD {
          assert FuFragments(frames[0].nals[0], 1, |frames[0].nals| == 1) != [];
        }
      }
      assert forall f | f in frames[1..] :: f in frames;
      GroupsNonEmpty(frames[1..], base);
    }
  }

  /** From the packets of any frames, `access_units` recovers the frames exactly when no two in a row
      have the same timestamp. */
  lemma FramesRecoveredExactly(frames: seq<Frame>, base: u32, q: u16, ssrc: u32)
    requires forall f | f in frames :: f.nals != []
    ensures AddAll([], RT.Stream(AllUnits(frames, base), q, ssrc)) == Groups(frames, base) <==> Ticking(frames, base)
  {
    hide Ticks, AddAll, RT.Stream, Sent, Groups, AllUnits, Ticking, Distinct;
    FramesAreSent(frames, base, q, ssrc);
    GroupsNonEmpty(frames, base);
    RegroupExactly(Groups(frames, base), q, ssrc);
    DistinctIsTicking(frames, base);
  }

  /** Every two frames in a row are at least 12 microseconds and less than 2^32 ticks apart. */
  predicate Paced(frames: seq<Frame>) {
    forall i, j | 0 <= i < |frames| && 0 <= j < |frames| && j == i + 1 :: Apart(frames[i].pts, frames[j].pts)
  }

  /** So paced frames are always recovered. */
  lemma PacedRecovered(frames: seq<Frame>, base: u32, q: u16, ssrc: u32)
    requires Paced(frames) && forall f | f in frames :: f.nals != [] && Fits(f.pts, base)
    ensures AddAll([], RT.Stream(AllUnits(frames, base), q, ssrc)) == Groups(frames, base)
  {
    hide AddAll, RT.Stream, Sent, Groups, AllUnits, Ticks, Apart, Fits;
    forall i, j | 0 <= i < |frames| && 0 <= j < |frames| && j == i + 1
      ensures Ticks(frames[i].pts, base) != Ticks(frames[j].pts, base)
    {
      ApartDiffer(frames[i].pts, frames[j].pts, base);
    }
    FramesRecoveredExactly(frames, base, q, ssrc);
  }

  // ----- the schedule of `replay` -----

  const FRAME_INTERVAL_US := 40000
  const ODD_FRAME_JITTER_US := 1037

  /** The time of the `k`-th frame, whose number `seq` is a 32-bit word: odd ones are late. */
  function Schedule(pts0: nat, k: nat): nat {
    var n := k % 0x1_0000_0000;
    pts0 + n * FRAME_INTERVAL_US + (if n % 2 == 1 then ODD_FRAME_JITTER_US else 0)
  }

  /** Until the number wraps it keeps frames apart, and two frames two apart by exactly 7200 ticks. */
  lemma ScheduleIsPaced(pts0: nat, k: nat, base: u32)
    requires k + 2 < 0x1_0000_0000
    requires 9 * (Schedule(pts0, k + 2) + base as int) < 0x1_0000_0000_0000_0000
    ensures Schedule(pts0, k + 1) < 0x1_0000_0000_0000_0000 && Apart(Schedule(pts0, k), Schedule(pts0, k + 1))
    ensures (Ticks(Schedule(pts0, k + 2), base) as int - Ticks(Schedule(pts0, k), base) as int) % 0x1_0000_0000 == 7200
  {
    hide Ticks;
    var p, q := Schedule(pts0, k), Schedule(pts0, k + 2);
    assert q == p + 80000;
    NeverDrift(p, q, base);
  }

  /** From an even frame to the next it is 41037 microseconds, from an odd one 38963. */
  lemma ScheduleSteps(pts0: nat, k: nat)
    requires k + 1 < 0x1_0000_0000
    ensures Schedule(pts0, 0) == pts0
    ensures Schedule(pts0, k + 1) == Schedule(pts0, k) + if k % 2 == 0 then 41037 else 38963
  {
  }

  /** Time never goes back from one frame to the next exactly until the number wraps: then it starts over. */
  lemma ScheduleRunsExactly(pts0: nat, k: nat)
    ensures Schedule(pts0, k) < Schedule(pts0, k + 1) <==> (k + 1) % 0x1_0000_0000 != 0
    ensures Schedule(pts0, k + 0x1_0000_0000) == Schedule(pts0, k)
  {
    var n := k % 0x1_0000_0000;
    assert (k + 1) % 0x1_0000_0000 == if n == 0xffff_ffff then 0 else n + 1;
    assert (k + 0x1_0000_0000) % 0x1_0000_0000 == n;
  }
}

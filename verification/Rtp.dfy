/** RTP packets (RFC 3550, section 5.1) and H.264 payloads (RFC 6184): what `rtp_send` and
    `send_video_nal` put on a track, and the receiver of section 5.8 that undoes it. */
module Rtp {
  import opened Bytes

  const MAX_PAYLOAD := 1200
  const FU_A_DATA := MAX_PAYLOAD - 2
  const PT_H264 := 96
  const PT_METADATA := 107
  const NAL_SEI := 6
  const NAL_SPS := 7
  const NAL_PPS := 8
  const NAL_FU_A := 28

  type Nal = n: seq<byte> | n != [] witness [0]

  function NalType(nal: Nal): nat {
    nal[0] % 0x20
  }

  datatype Packet = Packet(marker: bool, pt: nat, seqno: u16, ts: u32, ssrc: u32, payload: seq<byte>)

  /** The octets `rtp_send` builds: version 2, no padding, extension or contributing sources. */
  function Encode(p: Packet): (b: seq<byte>)
    requires p.pt < 0x80
    ensures |b| == 12 + |p.payload|
  {
    [0x80, (if p.marker then 0x80 else 0) + p.pt] + BE16(p.seqno) + BE32(p.ts) + BE32(p.ssrc) + p.payload
  }

  /** `parse` of the comparison tool: a datagram too short for `struct.unpack` is an error there. */
  function Parse(b: seq<byte>): Option<Packet> {
    if |b| < 12 then None
    else Some(Packet(b[1] / 0x80 == 1, b[1] % 0x80, FromBE16(b[2..4]), FromBE32(b[4..8]), FromBE32(b[8..12]), b[12..]))
  }

  lemma ParseEncode(p: Packet)
    requires p.pt < 0x80
    ensures Parse(Encode(p)) == Some(p)
  {
    var b := Encode(p);
    assert b[2..4] == BE16(p.seqno);
    assert b[4..8] == BE32(p.ts);
    assert b[8..12] == BE32(p.ssrc);
    assert b[12..] == p.payload;
    BE16RoundTrip(p.seqno);
    BE32RoundTrip(p.ts);
    BE32RoundTrip(p.ssrc);
  }

  /** Version 2 without padding, extension or contributing sources, then the fields in network order. */
  lemma FixedHeader(p: Packet)
    requires p.pt < 0x80
    ensures var b := Encode(p);
            && b[0] / 64 == 2 && b[0] % 64 == 0
            && b[1] as int == (if p.marker then 128 else 0) + p.pt
            && b[2] as int * 256 + b[3] as int == p.seqno as int
            && b[4] as int * 16777216 + b[5] as int * 65536 + b[6] as int * 256 + b[7] as int == p.ts as int
            && b[8] as int * 16777216 + b[9] as int * 65536 + b[10] as int * 256 + b[11] as int == p.ssrc as int
            && b[12..] == p.payload
  {
    BE16RoundTrip(p.seqno);
    BE32RoundTrip(p.ts);
    BE32RoundTrip(p.ssrc);
    hide BE16, BE32;
  }

  // ----- sender -----

  /** One RTP payload of a NAL unit and the marker bit it is sent with. */
  datatype Fragment = Fragment(marker: bool, payload: seq<byte>)

  function FuIndicator(nal: Nal): byte {
    nal[0] / 0x20 * 0x20 + NAL_FU_A
  }

  function FuHeader(nal: Nal, start: bool, end: bool): byte {
    (if start then 0x80 else 0) + (if end then 0x40 else 0) + NalType(nal)
  }

  function ChunkLen(nal: Nal, off: nat): (n: nat)
    requires off < |nal|
    ensures 1 <= n <= FU_A_DATA && off + n <= |nal|
  {
    if |nal| - off < FU_A_DATA then |nal| - off else FU_A_DATA
  }

  function FuFragment(nal: Nal, off: nat, last: bool): Fragment
    requires 1 <= off < |nal|
  {
    var n := ChunkLen(nal, off);
    var end := off + n == |nal|;
    Fragment(last && end, [FuIndicator(nal), FuHeader(nal, off == 1, end)] + nal[off..off + n])
  }

  /** The FU-A packets still to be sent when `off` octets of the NAL unit have been dealt with. */
  function FuFragments(nal: Nal, off: nat, last: bool): seq<Fragment>
    requires 1 <= off <= |nal|
    decreases |nal| - off
  {
    if off == |nal| then []
    else [FuFragment(nal, off, last)] + FuFragments(nal, off + ChunkLen(nal, off), last)
  }

  function Packetize(nal: Nal, last: bool): seq<Fragment> {
    if |nal| <= MAX_PAYLOAD then [Fragment(last, nal)] else FuFragments(nal, 1, last)
  }

  /** `n` increments of a 16-bit sequence number. */
  function Advance(q: u16, n: nat): u16 {
    (q + n) % 0x1_0000
  }

  lemma AdvanceAdd(q: u16, a: nat, b: nat)
    ensures Advance(Advance(q, a), b) == Advance(q, a + b)
    ensures Advance(q, 0) == q
  {
  }

  /** Consecutive packets of one track. */
  function Stamp(fs: seq<Fragment>, pt: nat, seqno: u16, ts: u32, ssrc: u32): seq<Packet> {
    if fs == [] then []
    else [Packet(fs[0].marker, pt, seqno, ts, ssrc, fs[0].payload)]
         + Stamp(fs[1..], pt, Advance(seqno, 1), ts, ssrc)
  }

  // ----- receiver (RFC 6184, sections 5.6 and 5.8) -----

  /** NAL units recovered so far, the fragmentation unit being assembled, and the sequence
      number that must come next for it to be continued. */
  datatype Receiver = Receiver(nals: seq<seq<byte>>, partial: Option<seq<byte>>, next: u16)

  function Receive(rx: Receiver, p: Packet): Receiver {
    var next := Advance(p.seqno, 1);
    if p.payload == [] then Receiver(rx.nals, None, next)
    else
      var t := p.payload[0] % 0x20;
      if 1 <= t <= 23 then Receiver(rx.nals + [p.payload], None, next)
      else if t == NAL_FU_A && |p.payload| >= 2 then
        var fu := p.payload[1];
        var start, end := fu / 0x80 == 1, fu / 0x40 % 2 == 1;
        var sofar :=
          if start then (if end then None else Some([p.payload[0] / 0x20 * 0x20 + fu % 0x20] + p.payload[2..]))
          else if rx.partial.Some? && p.seqno == rx.next then Some(rx.partial.value + p.payload[2..])
          else None;
        if end && sofar.Some? then Receiver(rx.nals + [sofar.value], None, next)
        else Receiver(rx.nals, sofar, next)
      else Receiver(rx.nals, None, next)
  }

  function ReceiveAll(rx: Receiver, ps: seq<Packet>): Receiver
    decreases |ps|
  {
    if ps == [] then rx else ReceiveAll(Receive(rx, ps[0]), ps[1..])
  }

  lemma {:induction false} ReceiveAppend(rx: Receiver, a: seq<Packet>, b: seq<Packet>)
    ensures ReceiveAll(rx, a + b) == ReceiveAll(ReceiveAll(rx, a), b)
    decreases |a|
  {
    if a == [] {
      assert a + b == b;
    } else {
      assert (a + b)[1..] == a[1..] + b;
      ReceiveAppend(Receive(rx, a[0]), a[1..], b);
    }
  }

  /** NAL units `send_video_nal` can carry: those sent whole must not look like an aggregate or a fragment. */
  predicate Carriable(nal: Nal) {
    |nal| <= MAX_PAYLOAD ==> 1 <= NalType(nal) <= 23
  }

  lemma FuFields(nal: Nal, start: bool, end: bool)
    ensures FuHeader(nal, start, end) / 0x80 == (if start then 1 else 0)
    ensures FuHeader(nal, start, end) / 0x40 % 2 == (if end then 1 else 0)
    ensures FuHeader(nal, start, end) % 0x20 == NalType(nal)
    ensures FuIndicator(nal) % 0x20 == NAL_FU_A
    ensures FuIndicator(nal) / 0x20 * 0x20 + NalType(nal) == nal[0]
  {
  }

  /** One fragment extends what the receiver holds of the NAL unit by that fragment's octets. */
  lemma FuStep(nal: Nal, off: nat, last: bool, rx: Receiver, p: Packet)
    requires |nal| > MAX_PAYLOAD && 1 <= off < |nal|
    requires off > 1 ==> rx.partial == Some(nal[..off])
    requires p.seqno == rx.next && p.payload == FuFragment(nal, off, last).payload
    ensures var upto := off + ChunkLen(nal, off);
            var next := Advance(rx.next, 1);
            Receive(rx, p) == if upto == |nal| then Receiver(rx.nals + [nal], None, next)
                              else Receiver(rx.nals, Some(nal[..upto]), next)
  {
    var n := ChunkLen(nal, off);
    FuFields(nal, off == 1, off + n == |nal|);
    assert p.payload[2..] == nal[off..off + n];
    assert nal[..1] == [nal[0]];
    assert nal[..off] + nal[off..off + n] == nal[..off + n];
    assert nal[..|nal|] == nal;
  }

  /** Invariant of reassembly: after `off` octets the receiver holds exactly that prefix. */
  lemma {:induction false} FuReceived(nal: Nal, off: nat, last: bool, rx: Receiver, ts: u32, ssrc: u32)
    requires |nal| > MAX_PAYLOAD && 1 <= off < |nal|
    requires off > 1 ==> rx.partial == Some(nal[..off])
    ensures var fs := FuFragments(nal, off, last);
            ReceiveAll(rx, Stamp(fs, PT_H264, rx.next, ts, ssrc))
            == Receiver(rx.nals + [nal], None, Advance(rx.next, |fs|))
    decreases |nal| - off
  {
    var upto, q := off + ChunkLen(nal, off), Advance(rx.next, 1);
    var f, rest := FuFragment(nal, off, last), FuFragments(nal, upto, last);
    var p := Packet(f.marker, PT_H264, rx.next, ts, ssrc, f.payload);
    FuStep(nal, off, last, rx, p);
    StampCons(f, rest, PT_H264, rx.next, ts, ssrc);
    hide FuFragment, Stamp, Advance;
    var rx' := Receive(rx, p);
    hide Receive;
    ReceiveCons(rx, p, Stamp(rest, PT_H264, q, ts, ssrc));
    if upto < |nal| {
      FuReceived(nal, upto, last, rx', ts, ssrc);
      AdvanceAdd(rx.next, 1, |rest|);
    }
  }

  lemma StampCons(f: Fragment, fs: seq<Fragment>, pt: nat, q: u16, ts: u32, ssrc: u32)
    ensures Stamp([f] + fs, pt, q, ts, ssrc)
         == [Packet(f.marker, pt, q, ts, ssrc, f.payload)] + Stamp(fs, pt, Advance(q, 1), ts, ssrc)
  {
    assert ([f] + fs)[1..] == fs;
  }

  lemma ReceiveCons(rx: Receiver, p: Packet, ps: seq<Packet>)
    ensures ReceiveAll(rx, [p] + ps) == ReceiveAll(Receive(rx, p), ps)
  {
    assert ([p] + ps)[1..] == ps;
  }

  /** One NAL unit: whatever was pending, the receiver ends with it and nothing pending. */
  lemma {:induction false} NalRoundTrip(nal: Nal, last: bool, rx: Receiver, ts: u32, ssrc: u32)
    requires Carriable(nal)
    ensures var fs := Packetize(nal, last);
            ReceiveAll(rx, Stamp(fs, PT_H264, rx.next, ts, ssrc))
            == Receiver(rx.nals + [nal], None, Advance(rx.next, |fs|))
  {
    if |nal| <= MAX_PAYLOAD {
      ReceiveCons(rx, Packet(last, PT_H264, rx.next, ts, ssrc, nal), []);
    } else {
      FuReceived(nal, 1, last, rx, ts, ssrc);
    }
  }
}

/** The packets of `send_video_nal`: their shape, and exactly which NAL units survive the trip. */
module RtpRoundTrip {
  import opened Bytes
  import opened Rtp

  /** A NAL unit handed to `send_video_nal`. */
  datatype Unit = Unit(nal: Nal, last: bool, ts: u32)

  /** All packets of a list of NAL units, numbered on from `q`. */
  function Stream(us: seq<Unit>, q: u16, ssrc: u32): seq<Packet> {
    if us == [] then []
    else
      var fs := Packetize(us[0].nal, us[0].last);
      Stamp(fs, PT_H264, q, us[0].ts, ssrc) + Stream(us[1..], Advance(q, |fs|), ssrc)
  }

  lemma StreamCons(u: Unit, us: seq<Unit>, q: u16, ssrc: u32)
    ensures var fs := Packetize(u.nal, u.last);
            Stream([u] + us, q, ssrc) == Stamp(fs, PT_H264, q, u.ts, ssrc) + Stream(us, Advance(q, |fs|), ssrc)
  {
    hide Stamp, Packetize, Advance;
    assert ([u] + us)[1..] == us;
  }

  function Nals(us: seq<Unit>): (r: seq<seq<byte>>)
    ensures |r| == |us|
  {
    seq(|us|, i requires 0 <= i < |us| => us[i].nal)
  }

  // ----- shape of the packets -----

  /** The importance bits are the NAL unit's and the reserved bit is clear. */
  lemma FuBits(nal: Nal, start: bool, end: bool)
    ensures FuIndicator(nal) % 32 == 28 && FuIndicator(nal) / 32 == nal[0] / 32
    ensures FuHeader(nal, start, end) / 32 % 2 == 0 && FuHeader(nal, start, end) % 32 == nal[0] % 32
  {
  }

  /** A NAL unit over 1200 octets becomes ceil((len - 1) / 1198) fragments; S is on the first only,
      E and the marker on the last only, so no fragment has both. */
  lemma {:induction false} FuShape(nal: Nal, off: nat, last: bool, k: nat)
    requires 1 <= off <= |nal|
    requires k < |FuFragments(nal, off, last)|
    ensures var fs := FuFragments(nal, off, last);
            && |fs| == (|nal| - off + 1197) / 1198
            && 3 <= |fs[k].payload| <= 1200
            && fs[k].payload[0] % 32 == 28 && fs[k].payload[0] / 32 == nal[0] / 32
            && fs[k].payload[1] / 32 % 2 == 0 && fs[k].payload[1] % 32 == nal[0] % 32
            && (fs[k].payload[1] / 0x80 == 1 <==> k == 0 && off == 1)
            && (fs[k].payload[1] / 0x40 % 2 == 1 <==> k == |fs| - 1)
            && (fs[k].marker <==> last && k == |fs| - 1)
    decreases |nal| - off
  {
    var n := ChunkLen(nal, off);
    FuFields(nal, off == 1, off + n == |nal|);
    FuBits(nal, off == 1, off + n == |nal|);
    if off + n == |nal| {
      assert FuFragments(nal, off, last) == [FuFragment(nal, off, last)];
    } else {
      FuShape(nal, off + n, last, if k == 0 then 0 else k - 1);
    }
  }

  /** Every packet fits in 1200 octets, so the guard in `track_send` (12 + 1200) drops none, and the
      marker is set exactly on the last packet of a NAL unit sent with `last`. */
  lemma PacketShape(nal: Nal, last: bool, k: nat)
    requires k < |Packetize(nal, last)|
    ensures var fs := Packetize(nal, last);
            && |fs| == (if |nal| <= 1200 then 1 else (|nal| + 1196) / 1198)
            && (|nal| > 1200 ==> |fs| >= 2)
            && 1 <= |fs[k].payload| <= 1200
            && (|nal| <= 1200 ==> fs[k].payload == nal)
            && (fs[k].marker <==> last && k == |fs| - 1)
  {
    if |nal| > MAX_PAYLOAD {
      FuShape(nal, 1, last, k);
    }
  }

  lemma {:induction false} StampAt(fs: seq<Fragment>, pt: nat, q: u16, ts: u32, ssrc: u32, k: nat)
    requires k < |fs|
    ensures |Stamp(fs, pt, q, ts, ssrc)| == |fs|
    ensures Stamp(fs, pt, q, ts, ssrc)[k] == Packet(fs[k].marker, pt, Advance(q, k), ts, ssrc, fs[k].payload)
  {
    AdvanceAdd(q, 0, 0);
    hide Advance;
    if |fs| == 1 {
      assert Stamp(fs, pt, q, ts, ssrc) == [Packet(fs[0].marker, pt, q, ts, ssrc, fs[0].payload)];
    } else {
      StampAt(fs[1..], pt, Advance(q, 1), ts, ssrc, if k == 0 then 0 else k - 1);
      if k > 0 {
        AdvanceAdd(q, 1, k - 1);
      }
    }
  }

  // ----- round trip -----

  lemma {:induction false} StreamRoundTrip(us: seq<Unit>, rx: Receiver, ssrc: u32)
    requires forall u :: u in us ==> Carriable(u.nal)
    ensures ReceiveAll(rx, Stream(us, rx.next, ssrc)).nals == rx.nals + Nals(us)
    decreases |us|
  {
    hide Stamp, Packetize, ReceiveAll, Carriable;
    if us == [] {
      ReceiveNone(rx);
    } else {
      hide Nals;
      var u, rest := us[0], us[1..];
      var ps := Stamp(Packetize(u.nal, u.last), PT_H264, rx.next, u.ts, ssrc);
      NalRoundTrip(u.nal, u.last, rx, u.ts, ssrc);
      var rx' := ReceiveAll(rx, ps);
      var tail := Stream(rest, rx'.next, ssrc);
      assert Stream(us, rx.next, ssrc) == ps + tail;
      hide Stream;
      assert u in us && forall v :: v in rest ==> v in us;
      ReceiveAppend(rx, ps, tail);
      StreamRoundTrip(rest, rx', ssrc);
      assert us == [u] + rest;
      NalsCons(u, rest);
      assert rx.nals + ([u.nal] + Nals(rest)) == (rx.nals + [u.nal]) + Nals(rest);
    }
  }

  lemma ReceiveNone(rx: Receiver)
    ensures ReceiveAll(rx, []) == rx
  {
  }

  lemma NalsCons(u: Unit, us: seq<Unit>)
    ensures Nals([u] + us) == [u.nal] + Nals(us)
  {
  }

  function Total(nals: seq<seq<byte>>): nat {
    if nals == [] then 0 else Total(nals[..|nals| - 1]) + |nals[|nals| - 1]|
  }

  lemma TotalSnoc(nals: seq<seq<byte>>, n: seq<byte>)
    ensures Total(nals + [n]) == Total(nals) + |n|
  {
    assert (nals + [n])[..|nals|] == nals;
  }

  /** Octets a receiver holds, delivered or pending. */
  function Held(rx: Receiver): nat {
    Total(rx.nals) + if rx.partial.Some? then |rx.partial.value| else 0
  }

  function PayloadOctets(p: Packet): nat {
    if p.payload == [] then 0
    else if 1 <= p.payload[0] % 0x20 <= 23 then |p.payload|
    else if p.payload[0] % 0x20 == NAL_FU_A && |p.payload| >= 2 then
      |p.payload| - 2 + if p.payload[1] / 0x80 == 1 then 1 else 0
    else 0
  }

  /** No packet yields more octets than it carries. */
  lemma HeldStep(rx: Receiver, p: Packet)
    ensures Held(Receive(rx, p)) <= Held(rx) + PayloadOctets(p)
  {
    var rx' := Receive(rx, p);
    if |rx'.nals| > |rx.nals| {
      TotalSnoc(rx.nals, rx'.nals[|rx.nals|]);
    }
  }

  lemma {:induction false} HeldFu(nal: Nal, off: nat, last: bool, q: u16, ts: u32, ssrc: u32, rx: Receiver)
    requires 1 <= off <= |nal|
    ensures Held(ReceiveAll(rx, Stamp(FuFragments(nal, off, last), PT_H264, q, ts, ssrc)))
         <= Held(rx) + |nal| - off + if off == 1 then 1 else 0
    decreases |nal| - off
  {
    if off < |nal| {
      var f, upto := FuFragment(nal, off, last), off + ChunkLen(nal, off);
      var p := Packet(f.marker, PT_H264, q, ts, ssrc, f.payload);
      var q' := Advance(q, 1);
      FuFields(nal, off == 1, upto == |nal|);
      HeldStep(rx, p);
      assert PayloadOctets(p) == upto - off + if off == 1 then 1 else 0;
      StampCons(f, FuFragments(nal, upto, last), PT_H264, q, ts, ssrc);
      ReceiveCons(rx, p, Stamp(FuFragments(nal, upto, last), PT_H264, q', ts, ssrc));
      HeldFu(nal, upto, last, q', ts, ssrc, Receive(rx, p));
    }
  }

  lemma HeldNal(u: Unit, q: u16, ssrc: u32, rx: Receiver)
    ensures Held(ReceiveAll(rx, Stamp(Packetize(u.nal, u.last), PT_H264, q, u.ts, ssrc)))
         <= Held(rx) + |u.nal| - if Carriable(u.nal) then 0 else 1
  {
    if |u.nal| <= MAX_PAYLOAD {
      var p := Packet(u.last, PT_H264, q, u.ts, ssrc, u.nal);
      ReceiveCons(rx, p, []);
      HeldStep(rx, p);
    } else {
      HeldFu(u.nal, 1, u.last, q, u.ts, ssrc, rx);
    }
  }

  /** The number of NAL units that cannot be carried. */
  function Uncarriable(us: seq<Unit>): (n: nat)
    ensures n == 0 <==> forall u :: u in us ==> Carriable(u.nal)
  {
    if us == [] then 0
    else
      assert us == [us[0]] + us[1..];
      (if Carriable(us[0].nal) then 0 else 1) + Uncarriable(us[1..])
  }

  lemma {:induction false} HeldStream(us: seq<Unit>, q: u16, ssrc: u32, rx: Receiver)
    ensures Held(ReceiveAll(rx, Stream(us, q, ssrc))) <= Held(rx) + Total(Nals(us)) - Uncarriable(us)
    decreases |us|
  {
    if us != [] {
      var u, rest := us[0], us[1..];
      var fs := Packetize(u.nal, u.last);
      var ps, q' := Stamp(fs, PT_H264, q, u.ts, ssrc), Advance(q, |fs|);
      var tail := Stream(rest, q', ssrc);
      assert Stream(us, q, ssrc) == ps + tail;
      assert us == [u] + rest;
      NalsCons(u, rest);
      HeldNal(u, q, ssrc, rx);
      hide Stream, Stamp, Packetize, Total, Held, Carriable, Advance, Nals;
      ReceiveAppend(rx, ps, tail);
      hide ReceiveAll;
      HeldStream(rest, q', ssrc, ReceiveAll(rx, ps));
      TotalCons(u.nal, Nals(rest));
    }
  }

  lemma {:induction false} TotalCons(n: seq<byte>, nals: seq<seq<byte>>)
    ensures Total([n] + nals) == |n| + Total(nals)
    decreases |nals|
  {
    if nals == [] {
      assert ([n] + nals)[..0] == [];
    } else {
      assert ([n] + nals)[..|nals|] == [n] + nals[..|nals| - 1];
      TotalCons(n, nals[..|nals| - 1]);
    }
  }

  /** A receiver starting afresh gets back the list that was sent exactly when every NAL unit
      short enough to be sent whole has one of the types 1 to 23. */
  lemma RoundTripExactly(us: seq<Unit>, q: u16, ssrc: u32)
    ensures ReceiveAll(Receiver([], None, q), Stream(us, q, ssrc)).nals == Nals(us)
       <==> forall u :: u in us ==> Carriable(u.nal)
  {
    var rx := Receiver([], None, q);
    if forall u :: u in us ==> Carriable(u.nal) {
      StreamRoundTrip(us, rx, ssrc);
    } else {
      HeldStream(us, q, ssrc, rx);
    }
  }
}

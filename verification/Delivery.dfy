/** What a client recovers from its video track: over every run, exactly the NAL units pushed to its
    stream from the first SPS after PLAY. */
module Delivery {
  import opened Bytes
  import opened Rtp
  import RT = RtpRoundTrip
  import opened Session
  import opened Framing

  // ----- reading a track off the log -----

  /** The RTP packets of one track among the messages sent. */
  function Packets(ms: seq<Message>, t: TrackId): seq<Packet> {
    if ms == [] then []
    else
      var m := ms[0];
      (if m.RtpOut? && m.track == t && Parse(m.data).Some? then [Parse(m.data).value] else []) + Packets(ms[1..], t)
  }

  lemma {:induction false} PacketsAppend(a: seq<Message>, b: seq<Message>, t: TrackId)
    ensures Packets(a + b, t) == Packets(a, t) + Packets(b, t)
  {
    if a == [] {
      assert a + b == b;
    } else {
      assert (a + b)[1..] == a[1..] + b;
      PacketsAppend(a[1..], b, t);
    }
  }

  /** Messages sent between two states of a connection. */
  function Since(c: Client, c': Client): seq<Message>
    requires c.log <= c'.log
  {
    c'.log[|c.log|..]
  }

  lemma SinceTrans(a: Client, b: Client, c: Client, t: TrackId)
    requires a.log <= b.log <= c.log
    ensures a.log <= c.log && Packets(Since(a, c), t) == Packets(Since(a, b), t) + Packets(Since(b, c), t)
  {
    assert Since(a, c) == Since(a, b) + Since(b, c);
    PacketsAppend(Since(a, b), Since(b, c), t);
  }

  /** Packets as they go out on a track. */
  function Wrap(ps: seq<Packet>, t: TrackId, via: Via): seq<Message>
    requires forall p :: p in ps ==> p.pt < 0x80
  {
    if ps == [] then [] else [RtpOut(t, via, Encode(ps[0]))] + Wrap(ps[1..], t, via)
  }

  lemma {:induction false} PacketsOfWrap(ps: seq<Packet>, t: TrackId, via: Via, u: TrackId)
    requires forall p :: p in ps ==> p.pt < 0x80
    ensures Packets(Wrap(ps, t, via), u) == if t == u then ps else []
  {
    if ps != [] {
      ParseEncode(ps[0]);
      PacketsOfWrap(ps[1..], t, via, u);
    }
  }

  lemma {:induction false} StampPt(fs: seq<Fragment>, pt: nat, q: u16, ts: u32, ssrc: u32)
    ensures forall p :: p in Stamp(fs, pt, q, ts, ssrc) ==> p.pt == pt
  {
    if fs != [] {
      StampPt(fs[1..], pt, Advance(q, 1), ts, ssrc);
    }
  }

  /** A packet, as the video track sends it. */
  function VideoOut(c: Client, fs: seq<Fragment>, ts: u32): seq<Message> {
    StampPt(fs, PT_H264, c.video.seqno, ts, c.video.ssrc);
    Wrap(Stamp(fs, PT_H264, c.video.seqno, ts, c.video.ssrc), Video, ViaOf(c.video, false))
  }

  /** Sending fragments touches the video sequence number and the log, nothing else. */
  lemma VideoOutNone(c: Client, ts: u32)
    ensures VideoOut(c, [], ts) == []
  {
  }

  lemma VideoOutCons(c: Client, c1: Client, f: Fragment, fs: seq<Fragment>, ts: u32)
    requires c1.video == c.video.(seqno := Advance(c.video.seqno, 1))
    ensures var p := Packet(f.marker, PT_H264, c.video.seqno, ts, c.video.ssrc, f.payload);
            VideoOut(c, [f] + fs, ts) == [RtpOut(Video, ViaOf(c.video, false), Encode(p))] + VideoOut(c1, fs, ts)
  {
    StampCons(f, fs, PT_H264, c.video.seqno, ts, c.video.ssrc);
  }

  lemma {:induction false} RtpSendAllEffect(c: Client, fs: seq<Fragment>, ts: u32)
    ensures RtpSendAll(c, fs, ts)
         == c.(log := c.log + VideoOut(c, fs, ts), video := c.video.(seqno := Advance(c.video.seqno, |fs|)))
    decreases |fs|
  {
    hide Encode, Stamp, Advance, VideoOut;
    if fs == [] {
      VideoOutNone(c, ts);
      AdvanceAdd(c.video.seqno, 0, 0);
      assert c.log + [] == c.log;
    } else {
      var c1 := RtpSend(c, Video, PT_H264, fs[0].marker, ts, fs[0].payload);
      RtpSendAllEffect(c1, fs[1..], ts);
      var p := Packet(fs[0].marker, PT_H264, c.video.seqno, ts, c.video.ssrc, fs[0].payload);
      assert [fs[0]] + fs[1..] == fs;
      var m := RtpOut(Video, ViaOf(c.video, false), Encode(p));
      VideoOutCons(c, c1, fs[0], fs[1..], ts);
      assert (c.log + [m]) + VideoOut(c1, fs[1..], ts) == c.log + VideoOut(c, fs, ts);
      AdvanceAdd(c.video.seqno, 1, |fs[1..]|);
    }
  }

  // ----- one push -----

  /** The NAL units of a stream that its viewers are meant to get: not SEI. */
  function PushedBy(sh: Shared, e: Event, stream: nat): seq<RT.Unit>
    requires stream < |sh.videoTsBase|
  {
    if e.Push? && e.stream == stream && e.nal != [] && NalType(e.nal) != NAL_SEI
    then [RT.Unit(e.nal, e.last, Ticks(e.pts, sh.videoTsBase[stream]))]
    else []
  }

  /** Nothing before the first SPS while the gate is closed. */
  function Gate(waiting: bool, us: seq<RT.Unit>): seq<RT.Unit> {
    if !waiting || us == [] || NalType(us[0].nal) == NAL_SPS then us
    else Gate(true, us[1..])
  }

  /** The gate of a waiting client lets through what is pushed from the first NAL unit of type 7 on. */
  lemma {:induction false} GateExactly(us: seq<RT.Unit>, k: nat)
    requires k <= |us| && forall j :: 0 <= j < k ==> us[j].nal[0] % 32 != 7
    ensures Gate(false, us) == us
    ensures k < |us| && us[k].nal[0] % 32 == 7 ==> Gate(true, us) == us[k..]
    ensures k == |us| ==> Gate(true, us) == []
    decreases |us|
  {
    if k > 0 {
      assert us[0].nal[0] % 32 != 7;
      assert us[1..][k - 1..] == us[k..];
      GateExactly(us[1..], k - 1);
    }
  }

  /** A push reaches the viewers of its stream unless it is empty or SEI, type 6, with its time in ticks of 90 kHz. */
  lemma PushedExactly(sh: Shared, stream: int, nal: seq<byte>, pts: u64, last: bool, viewed: nat)
    requires viewed < |sh.videoTsBase|
    ensures PushedBy(sh, Push(stream, nal, pts, last), viewed) ==
            if stream == viewed && nal != [] && nal[0] % 32 != 6
            then [RT.Unit(nal, last, (pts as int + sh.videoTsBase[viewed] as int) % 0x1_0000_0000_0000_0000 * 9
                                     % 0x1_0000_0000_0000_0000 / 100 % 0x1_0000_0000)]
            else []
  {
  }

  predicate StillWaiting(waiting: bool, us: seq<RT.Unit>) {
    waiting && forall u :: u in us ==> NalType(u.nal) != NAL_SPS
  }

  lemma {:induction false} GateAppend(waiting: bool, a: seq<RT.Unit>, b: seq<RT.Unit>)
    ensures Gate(waiting, a + b) == Gate(waiting, a) + Gate(StillWaiting(waiting, a), b)
    decreases |a|
  {
    if !waiting {
    } else if a == [] {
      assert a + b == b;
    } else if NalType(a[0].nal) != NAL_SPS {
      assert (a + b)[1..] == a[1..] + b;
      assert a == [a[0]] + a[1..];
      GateAppend(true, a[1..], b);
    }
  }

  lemma {:induction false} StreamAppend(a: seq<RT.Unit>, b: seq<RT.Unit>, q: u16, ssrc: u32)
    ensures RT.Stream(a + b, q, ssrc)
         == RT.Stream(a, q, ssrc) + RT.Stream(b, Advance(q, |RT.Stream(a, q, ssrc)|), ssrc)
    decreases |a|
  {
    hide Stamp, Packetize, Advance;
    if a == [] {
      AdvanceAdd(q, 0, 0);
      assert a + b == b;
    } else {
      hide RT.Stream;
      var u, us := a[0], a[1..];
      var fs := Packetize(u.nal, u.last);
      assert a == [u] + us && a + b == [u] + (us + b);
      RT.StreamCons(u, us, q, ssrc);
      RT.StreamCons(u, us + b, q, ssrc);
      StampLen(fs, PT_H264, q, u.ts, ssrc);
      StreamAppend(us, b, Advance(q, |fs|), ssrc);
      AdvanceAdd(q, |fs|, |RT.Stream(us, Advance(q, |fs|), ssrc)|);
    }
  }

  lemma {:induction false} StampLen(fs: seq<Fragment>, pt: nat, q: u16, ts: u32, ssrc: u32)
    ensures |Stamp(fs, pt, q, ts, ssrc)| == |fs|
  {
    if fs != [] {
      StampLen(fs[1..], pt, Advance(q, 1), ts, ssrc);
    }
  }

  /** `c'` is `c` after the gated NAL units `us` went out on its video track, ignoring what else
      happened on the connection. */
  predicate Delivered(c: Client, c': Client, us: seq<RT.Unit>) {
    && c.log <= c'.log
    && c'.tcpFd == c.tcpFd && c'.playing == c.playing && c'.streamId == c.streamId
    && c'.waitingForSps == StillWaiting(c.waitingForSps, us)
    && var ps := RT.Stream(Gate(c.waitingForSps, us), c.video.seqno, c.video.ssrc);
       && Packets(Since(c, c'), Video) == ps
       && c'.video == c.video.(seqno := Advance(c.video.seqno, |ps|))
  }

  lemma DeliveredTrans(a: Client, b: Client, c: Client, us: seq<RT.Unit>, vs: seq<RT.Unit>)
    requires Delivered(a, b, us) && Delivered(b, c, vs)
    ensures Delivered(a, c, us + vs)
  {
    hide Gate, Packets, RT.Stream, Advance, Since;
    SinceTrans(a, b, c, Video);
    GateAppend(a.waitingForSps, us, vs);
    var g, h := Gate(a.waitingForSps, us), Gate(b.waitingForSps, vs);
    StreamAppend(g, h, a.video.seqno, a.video.ssrc);
    var n, m := |RT.Stream(g, a.video.seqno, a.video.ssrc)|, |RT.Stream(h, b.video.seqno, a.video.ssrc)|;
    AdvanceAdd(a.video.seqno, n, m);
  }

  lemma Undelivered(c: Client, c': Client)
    requires c.log <= c'.log && Packets(Since(c, c'), Video) == []
    requires c'.tcpFd == c.tcpFd && c'.playing == c.playing && c'.streamId == c.streamId
    requires c'.waitingForSps == c.waitingForSps && c'.video == c.video
    ensures Delivered(c, c', [])
  {
    AdvanceAdd(c.video.seqno, 0, 0);
  }

  predicate Playing(c: Client) {
    c.tcpFd >= 0 && c.playing && c.video.active
  }

  lemma PushDelivers(c: Client, u: RT.Unit)
    requires Playing(c)
    ensures Delivered(c, PushTo(c, c.streamId, u.nal, u.ts, u.last), [u])
  {
    var c' := PushTo(c, c.streamId, u.nal, u.ts, u.last);
    if c.waitingForSps && NalType(u.nal) != NAL_SPS {
      assert Gate(true, [u]) == Gate(true, [u][1..]) == [];
      AdvanceAdd(c.video.seqno, 0, 0);
      assert u in [u];
    } else {
      var fs := Packetize(u.nal, u.last);
      RtpSendAllEffect(c.(waitingForSps := false), fs, u.ts);
      assert Since(c, c') == VideoOut(c, fs, u.ts);
      var ps := Stamp(fs, PT_H264, c.video.seqno, u.ts, c.video.ssrc);
      StampPt(fs, PT_H264, c.video.seqno, u.ts, c.video.ssrc);
      StampLen(fs, PT_H264, c.video.seqno, u.ts, c.video.ssrc);
      PacketsOfWrap(ps, Video, ViaOf(c.video, false), Video);
      assert Gate(c.waitingForSps, [u]) == [u];
      assert [u][1..] == [];
      assert RT.Stream([u], c.video.seqno, c.video.ssrc) == ps + [];
      assert u in [u];
    }
  }

  // ----- runs -----

  /** The requests that end a client's episode: a SETUP that replaces the video track or succeeds, a
      PLAY or TEARDOWN of the right session. Refused ones do not. */
  predicate EndsEpisode(sh: Shared, c: Client, r: Request, ch: Choice) {
    && Authorised(sh, c, ch)
    && (|| (r.verb in {Play, Teardown} && SessionError(c, r).None?)
        || (r.verb == Setup && StreamEnabled(sh, r.stream)
            && (Prepare(r.transport, ch.attempts).Ready?
                || (Prepare(r.transport, ch.attempts).NoPorts? && SetupTrack(r) == Video))))
  }

  /** The events that end it: such a request, or the loss of the connection. */
  predicate Interrupts(s: Server, e: Event, i: nat, read: Reading)
    requires i < |s.clients|
  {
    match e
    case Shutdown => true
    case Hangup(j) => j == i
    case Handle(j, ch) =>
      && j == i && NextRequest(s.clients[i].inbox.rx).Some?
      && EndsEpisode(s.shared, s.clients[i], read(NextRequest(s.clients[i].inbox.rx).value), ch)
    case _ => false
  }

  predicate Quiet(s: Server, es: seq<Event>, i: nat, read: Reading)
    requires Shaped(s) && i < MAX_CLIENTS
    decreases |es|
  {
    es == [] || (!Interrupts(s, es[0], i, read) && Quiet(Step(s, es[0], read), es[1..], i, read))
  }

  /** The NAL units pushed to a stream during a run, SEI left out. */
  function Pushed(sh: Shared, es: seq<Event>, stream: nat): seq<RT.Unit>
    requires stream < |sh.videoTsBase|
  {
    if es == [] then [] else PushedBy(sh, es[0], stream) + Pushed(sh, es[1..], stream)
  }

  lemma {:induction false} PushedSameBase(sh: Shared, sh': Shared, es: seq<Event>, stream: nat)
    requires stream < |sh.videoTsBase| && sh.videoTsBase == sh'.videoTsBase
    ensures Pushed(sh, es, stream) == Pushed(sh', es, stream)
  {
    if es != [] {
      PushedSameBase(sh, sh', es[1..], stream);
    }
  }

  lemma BaseFixed(s: Server, e: Event, read: Reading)
    requires Shaped(s)
    ensures Step(s, e, read).shared.videoTsBase == s.shared.videoTsBase
  {
  }

  /** A message that is no video packet. */
  lemma OneMessage(c: Client, c': Client, m: Message)
    requires c'.log == c.log + [m] && !(m.RtpOut? && m.track == Video)
    ensures Packets(Since(c, c'), Video) == []
  {
    assert Since(c, c') == [m];
    assert [m][1..] == [];
  }

  /** What any other request does: one reply at most, and no change but to a metadata track that could
      not be bound. */
  predicate KeepsEpisode(c: Client, c': Client, m: Message) {
    && m.Reply? && c' == c.(log := c.log + [m], metadata := c'.metadata)
    && (c'.metadata == c.metadata || !c'.metadata.interleaved)
  }

  lemma RefusedSetup(sh: Shared, c: Client, open: set<int>, r: Request, ch: Choice) returns (m: Message)
    requires Authorised(sh, c, ch) && r.verb == Setup && !EndsEpisode(sh, c, r, ch)
    ensures KeepsEpisode(c, HandleSetup(sh, c, open, r, ch).0, m)
  {
    hide BindUdpPair;
    var p := Prepare(r.transport, ch.attempts);
    m := if !StreamEnabled(sh, r.stream) then Reply(404, r.cseq, NoDetail)
         else if p.Unusable? then Reply(400, r.cseq, NoDetail)
         else Reply(500, r.cseq, NoDetail);
  }

  lemma RefusedSession(c: Client, open: set<int>, r: Request, ch: Choice) returns (m: Message)
    requires SessionError(c, r).Some?
    ensures m.Reply? && HandlePlay(c, r, ch) == c.Send(m) && HandleTeardown(c, open, r) == (c.Send(m), open)
  {
    m := Reply(SessionError(c, r).value, r.cseq, NoDetail);
  }

  lemma UninterruptingRequest(sh: Shared, c: Client, open: set<int>, r: Request, ch: Choice) returns (m: Message)
    requires !EndsEpisode(sh, c, r, ch)
    ensures var h := HandleRequest(sh, c, open, r, ch); h.Some? ==> KeepsEpisode(c, h.value.0, m)
  {
    hide HandleSetup, HandlePlay, HandleTeardown, StreamEnabled, Prepare;
    if Authorised(sh, c, ch) && r.verb == Setup {
      m := RefusedSetup(sh, c, open, r, ch);
    } else if Authorised(sh, c, ch) && r.verb in {Play, Teardown} {
      m := RefusedSession(c, open, r, ch);
    } else {
      m := QuietReply(sh, c, open, r, ch);
    }
  }

  /** The same of the request an event handles. */
  lemma QuietConsume(s: Server, i: nat, ch: Choice, read: Reading) returns (m: Message)
    requires Shaped(s) && i < MAX_CLIENTS && !Interrupts(s, Handle(i, ch), i, read)
    ensures var c, c' := s.clients[i], Consume(s.shared, s.clients[i], s.open, read, ch).0;
            c' == c || KeepsEpisode(c, c'.(inbox := c.inbox), m)
  {
    hide HandleRequest, EndsEpisode;
    var c := s.clients[i];
    m := Reply(0, [], NoDetail);
    if NextRequest(c.inbox.rx).Some? {
      m := UninterruptingRequest(s.shared, c, s.open, read(NextRequest(c.inbox.rx).value), ch);
    }
  }

  lemma QuietRequest(s: Server, i: nat, ch: Choice, read: Reading)
    requires Shaped(s) && i < MAX_CLIENTS && !Interrupts(s, Handle(i, ch), i, read)
    ensures Delivered(s.clients[i], Consume(s.shared, s.clients[i], s.open, read, ch).0, [])
  {
    hide Consume, Interrupts;
    var c := s.clients[i];
    var c' := Consume(s.shared, c, s.open, read, ch).0;
    var m := QuietConsume(s, i, ch, read);
    if c' == c {
      assert Since(c, c') == [];
    } else {
      OneMessage(c, c', m);
    }
    Undelivered(c, c');
  }

  lemma MetadataApart(sh: Shared, c: Client, clock: u64, xml: seq<byte>)
    ensures Delivered(c, MetadataPacket(sh, c, clock, xml), [])
  {
    var c' := MetadataPacket(sh, c, clock, xml);
    OneMessage(c, c', c'.log[|c.log|]);
    Undelivered(c, c');
  }

  /** One event of a quiet run delivers what it pushed to the client's stream, through the gate. */
  lemma QuietStep(s: Server, e: Event, i: nat, read: Reading)
    requires Shaped(s) && i < MAX_CLIENTS && Playing(s.clients[i]) && s.clients[i].streamId < STREAM_COUNT
    requires !Interrupts(s, e, i, read)
    ensures Delivered(s.clients[i], Step(s, e, read).clients[i], PushedBy(s.shared, e, s.clients[i].streamId))
  {
    hide HandleRequest, Delivered;
    var c := s.clients[i];
    var c' := Step(s, e, read).clients[i];
    if e.Handle? && e.i == i {
      QuietRequest(s, i, e.choice, read);
    } else if e.SendMetadata? && e.i == i {
      MetadataApart(s.shared, c, e.clock, e.xml);
    } else if PushedBy(s.shared, e, c.streamId) != [] {
      PushDelivers(c, RT.Unit(e.nal, e.last, Ticks(e.pts, s.shared.videoTsBase[c.streamId])));
    } else {
      assert Since(c, c') == [];
      Undelivered(c, c');
    }
  }

  /** Over a whole quiet run the video packets are exactly those of the gated NAL units, with
      consecutive sequence numbers, whatever else the clients, the clock and the streams do. */
  lemma {:induction false} QuietRun(s: Server, es: seq<Event>, i: nat, read: Reading)
    requires Shaped(s) && i < MAX_CLIENTS && Playing(s.clients[i]) && s.clients[i].streamId < STREAM_COUNT
    requires Quiet(s, es, i, read)
    ensures Delivered(s.clients[i], Run(s, es, read).clients[i], Pushed(s.shared, es, s.clients[i].streamId))
    decreases |es|
  {
    var c := s.clients[i];
    if es == [] {
      assert Since(c, c) == [];
      Undelivered(c, c);
    } else {
      var s1 := Step(s, es[0], read);
      QuietStep(s, es[0], i, read);
      QuietRun(s1, es[1..], i, read);
      BaseFixed(s, es[0], read);
      PushedSameBase(s.shared, s1.shared, es[1..], c.streamId);
      DeliveredTrans(c, s1.clients[i], Run(s, es, read).clients[i],
                     PushedBy(s.shared, es[0], c.streamId), Pushed(s.shared, es[1..], c.streamId));
    }
  }

  /** What a receiver that starts afresh recovers between two states of a connection. */
  function Recovered(c: Client, c': Client): seq<seq<byte>>
    requires c.log <= c'.log
  {
    ReceiveAll(Receiver([], None, c.video.seqno), Packets(Since(c, c'), Video)).nals
  }

  /** Delivery: from any state where a client plays its video track, over any run that does not
      interrupt it, an RFC 6184 receiver recovers exactly the NAL units of the client's stream (from
      the first SPS, if one is still awaited), in order and unmodified - provided, and only provided,
      each of those short enough to be sent whole has one of the types 1 to 23. */
  lemma DeliveryExactly(s: Server, es: seq<Event>, i: nat, read: Reading)
    requires Shaped(s) && i < MAX_CLIENTS && Playing(s.clients[i]) && s.clients[i].streamId < STREAM_COUNT
    requires Quiet(s, es, i, read)
    ensures var c, c' := s.clients[i], Run(s, es, read).clients[i];
            var us := Gate(c.waitingForSps, Pushed(s.shared, es, c.streamId));
            && c.log <= c'.log
            && (Recovered(c, c') == RT.Nals(us) <==> forall u :: u in us ==> Carriable(u.nal))
  {
    QuietRun(s, es, i, read);
    var c := s.clients[i];
    RT.RoundTripExactly(Gate(c.waitingForSps, Pushed(s.shared, es, c.streamId)), c.video.seqno, c.video.ssrc);
  }

  /** The next request of client `i` is a PLAY that will succeed. */
  predicate Plays(s: Server, i: nat, ch: Choice, read: Reading) {
    && Connected(s, i) && NextRequest(s.clients[i].inbox.rx).Some? && Authorised(s.shared, s.clients[i], ch)
    && var r := read(NextRequest(s.clients[i].inbox.rx).value); r.verb == Play && SessionError(s.clients[i], r).None?
  }

  /** A successful PLAY closes the gate, so the next run starts with the stream's next SPS, and starts the
      metadata schedule. */
  lemma PlayClosesGate(s: Server, i: nat, ch: Choice, read: Reading)
    requires Shaped(s) && Plays(s, i, ch, read)
    ensures var c, c' := s.clients[i], Step(s, Handle(i, ch), read).clients[i];
            && c'.playing && c'.waitingForSps && c'.nextMetadataUs == ch.now
            && c'.video == c.video && c'.streamId == c.streamId && c'.tcpFd == c.tcpFd
  {
  }

  /** A push reaches only the connected, playing clients of its stream. */
  lemma OthersUntouched(s: Server, stream: int, nal: seq<byte>, pts: u64, last: bool, i: nat, read: Reading)
    requires Shaped(s) && i < MAX_CLIENTS
    requires !Playing(s.clients[i]) || s.clients[i].streamId != stream
    ensures Step(s, Push(stream, nal, pts, last), read).clients[i] == s.clients[i]
  {
  }
}

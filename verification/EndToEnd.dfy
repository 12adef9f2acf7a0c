/** From the NAL units pushed into the server to those a client recovers from its TCP connection. */
module EndToEnd {
  import opened Bytes
  import opened Rtp
  import RT = RtpRoundTrip
  import opened Session
  import I = Invariants
  import opened Delivery
  import T = TrackRuns
  import opened Replies
  import W = Wire

  // ----- the TCP stream -----

  /** What a message puts on the client's TCP connection. */
  function OnWire(m: Message): seq<W.Item> {
    match m
    case Reply(code, cseq, d) => [W.Rtsp(W.Join(Lines(code, cseq, d)), Body(d))]
    case RtpOut(_, via, data) => if via.OnTcp? then [W.Frame(via.channel, data)] else []
    case RtcpOut(_, via, data) => if via.OnTcp? then [W.Frame(via.channel, data)] else []
  }

  function Items(ms: seq<Message>): seq<W.Item> {
    if ms == [] then [] else OnWire(ms[0]) + Items(ms[1..])
  }

  /** No packet is larger than the buffer of `track_send`, so none is dropped. */
  predicate Small(m: Message) {
    !m.Reply? ==> |m.data| <= 12 + MAX_PAYLOAD
  }

  lemma {:induction false} ItemsWellFormed(ms: seq<Message>)
    requires forall m :: m in ms ==> Small(m)
    ensures forall x :: x in Items(ms) ==> W.WellFormed(x)
  {
    if ms != [] {
      var m := ms[0];
      if m.Reply? {
        var lines := Lines(m.code, m.cseq, m.detail);
        ReplyWellFormed(m.code, m.cseq, m.detail);
        hide Lines, Body;
        assert W.WellFormed(W.Rtsp(W.Join(lines), Body(m.detail)));
      }
      assert Small(m);
      assert forall x :: x in OnWire(m) ==> W.WellFormed(x);
      ItemsWellFormed(ms[1..]);
    }
  }

  /** The octets of the connection. */
  ghost function TcpBytes(ms: seq<Message>): seq<byte>
    requires forall m :: m in ms ==> Small(m)
  {
    ItemsWellFormed(ms);
    W.EncodeAll(Items(ms))
  }

  /** The payloads of the frames on one channel, as RTP packets. */
  function OnChannel(xs: seq<W.Item>, ch: byte): seq<Packet> {
    if xs == [] then []
    else
      var x := xs[0];
      (if x.Frame? && x.channel == ch && Parse(x.data).Some? then [Parse(x.data).value] else []) + OnChannel(xs[1..], ch)
  }

  lemma {:induction false} OnChannelAppend(a: seq<W.Item>, b: seq<W.Item>, ch: byte)
    ensures OnChannel(a + b, ch) == OnChannel(a, ch) + OnChannel(b, ch)
  {
    if a == [] {
      assert a + b == b;
    } else {
      assert (a + b)[1..] == a[1..] + b;
      OnChannelAppend(a[1..], b, ch);
    }
  }

  // ----- a quiet run's messages -----

  /** Only replies and RTP of the two tracks, and the video track alone over `video`. */
  predicate Plain(m: Message, video: Via) {
    m.Reply? || (m.RtpOut? && (m.track == Video <==> m.via == video))
  }

  predicate AllPlain(ms: seq<Message>, video: Via) {
    forall m :: m in ms ==> Plain(m, video) && Small(m)
  }

  /** The channel of an interleaved video track carries exactly the video packets. */
  lemma {:induction false} ChannelIsTrack(ms: seq<Message>, ch: byte)
    requires AllPlain(ms, OnTcp(ch))
    ensures OnChannel(Items(ms), ch) == Packets(ms, Video)
  {
    if ms != [] {
      var m := ms[0];
      assert m in ms;
      ChannelIsTrack(ms[1..], ch);
      OnChannelAppend(OnWire(m), Items(ms[1..]), ch);
      assert OnWire(m) != [] ==> OnWire(m)[1..] == [];
    }
  }

  lemma {:induction false} WrapPlain(ps: seq<Packet>, video: Via)
    requires forall p :: p in ps ==> p.pt < 0x80 && |p.payload| <= MAX_PAYLOAD
    ensures AllPlain(Wrap(ps, Video, video), video)
  {
    if ps != [] {
      WrapPlain(ps[1..], video);
    }
  }

  lemma VideoOutPlain(c: Client, nal: Nal, last: bool, ts: u32)
    ensures AllPlain(VideoOut(c, Packetize(nal, last), ts), ViaOf(c.video, false))
  {
    var fs := Packetize(nal, last);
    var ps := Stamp(fs, PT_H264, c.video.seqno, ts, c.video.ssrc);
    StampPt(fs, PT_H264, c.video.seqno, ts, c.video.ssrc);
    StampLen(fs, PT_H264, c.video.seqno, ts, c.video.ssrc);
    forall p | p in ps ensures |p.payload| <= MAX_PAYLOAD {
      var k :| 0 <= k < |ps| && ps[k] == p;
      RT.StampAt(fs, PT_H264, c.video.seqno, ts, c.video.ssrc, k);
      RT.PacketShape(nal, last, k);
    }
    WrapPlain(ps, ViaOf(c.video, false));
  }

  /** The two tracks send to different places. */
  predicate Apart(c: Client) {
    ViaOf(c.metadata, false) != ViaOf(c.video, false)
  }

  /** Two tracks with sockets of their own always do. */
  lemma SocketsApart(sh: Shared, c: Client)
    requires I.SessionOk(sh, c) && I.Separate(c) && c.video.active && !c.video.interleaved
    ensures Apart(c)
  {
    assert c.video.rtpFd in TrackFds(c.video);
    assert c.video.rtpFd == c.metadata.rtpFd ==> c.metadata.rtpFd in TrackFds(c.metadata);
  }

  /** The video track keeps its transport, a metadata track at most loses its own, and only plain
      messages are added. */
  predicate KeepsTransports(c: Client, c': Client) {
    && c.log <= c'.log
    && c'.video == c.video.(seqno := c'.video.seqno)
    && (ViaOf(c'.metadata, false) == ViaOf(c.metadata, false) || !c'.metadata.interleaved)
    && AllPlain(Since(c, c'), ViaOf(c.video, false))
  }

  lemma KeepsSame(c: Client, c': Client)
    requires c'.log == c.log && c'.video == c.video && c'.metadata == c.metadata
    ensures KeepsTransports(c, c')
  {
    assert Since(c, c') == [];
  }

  lemma KeepsHandle(s: Server, i: nat, ch: Choice, read: Reading)
    requires Shaped(s) && i < MAX_CLIENTS && !Interrupts(s, Handle(i, ch), i, read)
    ensures KeepsTransports(s.clients[i], Consume(s.shared, s.clients[i], s.open, read, ch).0)
  {
    hide Consume, Interrupts;
    var c := s.clients[i];
    var c' := Consume(s.shared, c, s.open, read, ch).0;
    var m := QuietConsume(s, i, ch, read);
    if c' == c {
      KeepsSame(c, c');
    } else {
      T.SinceIs(c, c', [m]);
    }
  }

  lemma KeepsPush(c: Client, stream: nat, nal: Nal, ts: u32, last: bool)
    ensures KeepsTransports(c, PushTo(c, stream, nal, ts, last))
  {
    var c' := PushTo(c, stream, nal, ts, last);
    if c' == c {
      KeepsSame(c, c);
    } else {
      RtpSendAllEffect(c.(waitingForSps := false), Packetize(nal, last), ts);
      VideoOutPlain(c, nal, last, ts);
      hide PushTo, RtpSendAll, Packetize, VideoOut;
      T.SinceIs(c, c', VideoOut(c, Packetize(nal, last), ts));
    }
  }

  lemma KeepsMetadata(sh: Shared, c: Client, clock: u64, xml: seq<byte>)
    requires Apart(c) && |xml| <= MAX_PAYLOAD
    ensures KeepsTransports(c, MetadataPacket(sh, c, clock, xml))
  {
    var c' := MetadataPacket(sh, c, clock, xml);
    T.SinceIs(c, c', [c'.log[|c.log|]]);
  }

  lemma KeepsStep(s: Server, e: Event, i: nat, read: Reading)
    requires Shaped(s) && Connected(s, i) && !Interrupts(s, e, i, read) && Honest(s, e, read) && Apart(s.clients[i])
    ensures KeepsTransports(s.clients[i], Step(s, e, read).clients[i])
  {
    hide KeepsTransports, Consume, PushTo, MetadataPacket, Ticks;
    var c, c' := s.clients[i], Step(s, e, read).clients[i];
    if e.Handle? && e.i == i {
      KeepsHandle(s, i, e.choice, read);
    } else if e.SendMetadata? && e.i == i {
      KeepsMetadata(s.shared, c, e.clock, e.xml);
    } else if e.Push? && c' != c {
      KeepsPush(c, e.stream, e.nal, Ticks(e.pts, s.shared.videoTsBase[e.stream]), e.last);
    } else {
      KeepsSame(c, c');
    }
  }

  /** What a quiet run needs of the state it starts from to keep the tracks apart: over TCP that they are,
      over UDP that the state is a reachable one. */
  ghost predicate StaysApart(s: Server, i: nat)
    requires i < |s.clients|
  {
    Apart(s.clients[i]) && s.clients[i].video.active && (s.clients[i].video.interleaved || I.Inv(s))
  }

  lemma StaysApartStep(s: Server, e: Event, i: nat, read: Reading)
    requires Shaped(s) && i < MAX_CLIENTS && StaysApart(s, i) && Guarded(s, e) && Honest(s, e, read)
    requires KeepsTransports(s.clients[i], Step(s, e, read).clients[i])
    ensures StaysApart(Step(s, e, read), i)
  {
    var s1 := Step(s, e, read);
    var c, c' := s.clients[i], s1.clients[i];
    hide Step, AllPlain;
    if !c.video.interleaved {
      I.StepInv(s, e, read);
      SocketsApart(s1.shared, c');
    }
  }

  lemma KeepsTrans(a: Client, b: Client, c: Client)
    requires KeepsTransports(a, b) && a.log <= b.log <= c.log
    requires c.video == b.video.(seqno := c.video.seqno) && AllPlain(Since(b, c), ViaOf(b.video, false))
    ensures c.video == a.video.(seqno := c.video.seqno) && AllPlain(Since(a, c), ViaOf(a.video, false))
  {
    assert Since(a, c) == Since(a, b) + Since(b, c);
  }

  lemma {:induction false} KeepsRun(s: Server, es: seq<Event>, i: nat, read: Reading)
    requires Shaped(s) && i < MAX_CLIENTS && Playing(s.clients[i]) && s.clients[i].streamId < STREAM_COUNT
    requires Quiet(s, es, i, read) && Legal(s, es, read) && StaysApart(s, i)
    ensures var c, c' := s.clients[i], Run(s, es, read).clients[i];
            && c.log <= c'.log && c'.video == c.video.(seqno := c'.video.seqno)
            && AllPlain(Since(c, c'), ViaOf(c.video, false))
    decreases |es|
  {
    hide Step, Interrupts, Guarded, Honest, AllPlain;
    if es == [] {
      KeepsSame(s.clients[i], s.clients[i]);
    } else {
      var s1 := Step(s, es[0], read);
      KeepsStep(s, es[0], i, read);
      QuietStep(s, es[0], i, read);
      StaysApartStep(s, es[0], i, read);
      KeepsRun(s1, es[1..], i, read);
      KeepsTrans(s.clients[i], s1.clients[i], Run(s, es, read).clients[i]);
    }
  }

  /** End to end: a client that plays its video track interleaved on `ch`, reads its TCP connection
      with the demultiplexer, keeps the frames of that channel and runs an RFC 6184 receiver over
      them, gets exactly the NAL units of its stream (from the first SPS, if still awaited) - if and
      only if those short enough to be sent whole have types 1 to 23. Whatever requests, metadata,
      other clients and other streams the run contains, provided the metadata track is not on the
      same channel. */
  lemma EndToEndDelivery(s: Server, es: seq<Event>, i: nat, ch: byte, read: Reading)
    requires Shaped(s) && i < MAX_CLIENTS && Playing(s.clients[i]) && s.clients[i].streamId < STREAM_COUNT
    requires Quiet(s, es, i, read) && Legal(s, es, read)
    requires ViaOf(s.clients[i].video, false) == OnTcp(ch) && ViaOf(s.clients[i].metadata, false) != OnTcp(ch)
    ensures var c, c' := s.clients[i], Run(s, es, read).clients[i];
            var us := Gate(c.waitingForSps, Pushed(s.shared, es, c.streamId));
            && c.log <= c'.log && (forall m :: m in Since(c, c') ==> Small(m))
            && var frames := OnChannel(W.DemuxAll(TcpBytes(Since(c, c'))), ch);
               (ReceiveAll(Receiver([], None, c.video.seqno), frames).nals == RT.Nals(us)
                <==> forall u :: u in us ==> Carriable(u.nal))
  {
    hide Packets, ReceiveAll, Quiet, Legal, Run;
    var c, c' := s.clients[i], Run(s, es, read).clients[i];
    KeepsRun(s, es, i, read);
    var ms := Since(c, c');
    ItemsWellFormed(ms);
    W.WireRoundTrip(Items(ms));
    ChannelIsTrack(ms, ch);
    DeliveryExactly(s, es, i, read);
  }

  /** In reachable states playing clients have an enabled stream, so the above applies to them all. */
  lemma ReachablePlaying(s: Server, i: nat)
    requires I.Inv(s) && i < MAX_CLIENTS && Playing(s.clients[i])
    ensures s.clients[i].streamId < STREAM_COUNT && s.shared.enabled[s.clients[i].streamId]
  {
  }

  /** No SPS, nothing through the gate. */
  lemma {:induction false} GateStaysShut(us: seq<RT.Unit>)
    requires forall u :: u in us ==> NalType(u.nal) != NAL_SPS
    ensures Gate(true, us) == []
    decreases |us|
  {
    if us != [] {
      assert us[0] in us && forall u :: u in us[1..] ==> u in us;
      GateStaysShut(us[1..]);
    }
  }

  /** From any reachable state: after a successful PLAY with an active video track, and up to the next
      SETUP, PLAY, TEARDOWN or disconnection, the client recovers exactly its stream's NAL units from
      the first SPS on, and none as long as no SPS is pushed. */
  lemma DeliveryAfterPlay(s: Server, i: nat, ch: Choice, es: seq<Event>, read: Reading)
    requires I.Inv(s) && Plays(s, i, ch, read)
    requires s.clients[i].video.active && Quiet(Step(s, Handle(i, ch), read), es, i, read)
    ensures var s1 := Step(s, Handle(i, ch), read);
            var c, c', pushed := s1.clients[i], Run(s1, es, read).clients[i], Pushed(s1.shared, es, s.clients[i].streamId);
            && c.log <= c'.log
            && (Recovered(c, c') == RT.Nals(Gate(true, pushed)) <==> forall u :: u in Gate(true, pushed) ==> Carriable(u.nal))
            && ((forall u :: u in pushed ==> NalType(u.nal) != NAL_SPS) ==> Recovered(c, c') == [])
  {
    var s1 := Step(s, Handle(i, ch), read);
    PlayClosesGate(s, i, ch, read);
    PlayKeepsConnection(s, i, ch, read);
    hide Step, Run, HandleRequest, Recovered, Gate, Quiet, Pushed;
    DeliveryExactly(s1, es, i, read);
    var pushed := Pushed(s1.shared, es, s.clients[i].streamId);
    if forall u :: u in pushed ==> NalType(u.nal) != NAL_SPS {
      GateStaysShut(pushed);
      assert RT.Nals([]) == [];
    }
  }

  lemma PlayKeepsConnection(s: Server, i: nat, ch: Choice, read: Reading)
    requires I.Inv(s) && Plays(s, i, ch, read)
    ensures Step(s, Handle(i, ch), read).clients[i].tcpFd == s.clients[i].tcpFd && s.clients[i].streamId < STREAM_COUNT
  {
  }
}

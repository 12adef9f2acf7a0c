/** Sequence numbers, SSRCs and metadata pacing over whole runs. */
module TrackRuns {
  import opened Bytes
  import opened Rtp
  import RT = RtpRoundTrip
  import opened Framing
  import opened Session
  import R = Requests
  import opened Delivery

  // ----- RTP identity (RFC 3550, section 5.1) -----

  /** The events that give a track a new RTP stream or take it away. */
  predicate Rebuilds(s: Server, e: Event, i: nat, t: TrackId, read: Reading)
    requires i < |s.clients|
  {
    match e
    case Shutdown => true
    case Hangup(j) => j == i
    case Handle(j, ch) =>
      && j == i && NextRequest(s.clients[i].inbox.rx).Some? && Authorised(s.shared, s.clients[i], ch)
      && var r := read(NextRequest(s.clients[i].inbox.rx).value);
         || (r.verb == Teardown && SessionError(s.clients[i], r).None?)
         || (r.verb == Setup && SetupTrack(r) == t && StreamEnabled(s.shared, r.stream)
             && !Prepare(r.transport, ch.attempts).Unusable?)
    case _ => false
  }

  predicate Kept(s: Server, es: seq<Event>, i: nat, t: TrackId, read: Reading)
    requires Shaped(s) && i < MAX_CLIENTS
    decreases |es|
  {
    es == [] || (!Rebuilds(s, es[0], i, t, read) && Kept(Step(s, es[0], read), es[1..], i, t, read))
  }

  predicate Consecutive(ps: seq<Packet>, q: u16, ssrc: u32) {
    forall k :: 0 <= k < |ps| ==> ps[k].seqno == Advance(q, k) && ps[k].ssrc == ssrc
  }

  lemma ConsecutiveAppend(xs: seq<Packet>, ys: seq<Packet>, q: u16, ssrc: u32)
    requires Consecutive(xs, q, ssrc) && Consecutive(ys, Advance(q, |xs|), ssrc)
    ensures Consecutive(xs + ys, q, ssrc)
  {
    forall k | |xs| <= k < |xs| + |ys| ensures (xs + ys)[k].seqno == Advance(q, k) {
      AdvanceAdd(q, |xs|, k - |xs|);
    }
  }

  /** Between `c` and `c'` the track sent packets numbered on from its counter, all with its SSRC. */
  predicate Numbered(c: Client, c': Client, t: TrackId) {
    && c.log <= c'.log
    && var x, ps := c.GetTrack(t), Packets(Since(c, c'), t);
       c'.GetTrack(t) == x.(seqno := Advance(x.seqno, |ps|)) && Consecutive(ps, x.seqno, x.ssrc)
  }

  lemma NumberedTrans(a: Client, b: Client, c: Client, t: TrackId)
    requires Numbered(a, b, t) && Numbered(b, c, t)
    ensures Numbered(a, c, t)
  {
    hide Packets, Advance, Consecutive, Since;
    SinceTrans(a, b, c, t);
    var x, xs, ys := a.GetTrack(t), Packets(Since(a, b), t), Packets(Since(b, c), t);
    ConsecutiveAppend(xs, ys, x.seqno, x.ssrc);
    AdvanceAdd(x.seqno, |xs|, |ys|);
  }

  lemma Unnumbered(c: Client, c': Client, t: TrackId)
    requires c.log <= c'.log && Packets(Since(c, c'), t) == [] && c'.GetTrack(t) == c.GetTrack(t)
    ensures Numbered(c, c', t)
  {
    AdvanceAdd(c.GetTrack(t).seqno, 0, 0);
  }

  /** Replies, and packets that are not RTP and fit the buffer of `track_send`. */
  predicate Control(ms: seq<Message>) {
    forall m :: m in ms ==> !m.RtpOut? && (m.RtcpOut? ==> |m.data| <= 12 + MAX_PAYLOAD)
  }

  lemma {:induction false} NoRtpNoPackets(ms: seq<Message>, t: TrackId)
    requires Control(ms)
    ensures Packets(ms, t) == []
  {
    if ms != [] {
      NoRtpNoPackets(ms[1..], t);
    }
  }

  /** Requests send replies and goodbyes, never RTP. */
  lemma RequestNoRtp(sh: Shared, c: Client, open: set<int>, r: Request, ch: Choice) returns (ms: seq<Message>)
    ensures Control(ms)
    ensures var h := HandleRequest(sh, c, open, r, ch); h.Some? ==> h.value.0.log == c.log + ms
  {
    if Authorised(sh, c, ch) && r.verb == Setup {
      var m := SetupShape(sh, c, open, r, ch);
      hide HandleSetup;
      ms := [m];
    } else if Authorised(sh, c, ch) && r.verb == Teardown {
      ms := TeardownNoRtp(c, open, r);
      hide HandleTeardown;
    } else if Authorised(sh, c, ch) && r.verb == Play {
      var m := R.PlayReplies(c, r, ch);
      hide HandlePlay;
      ms := [m];
    } else {
      var m := QuietReply(sh, c, open, r, ch);
      hide HandleRequest;
      ms := [m];
    }
  }

  lemma ByeLength(ssrc: u32)
    ensures |Bye(ssrc)| == 24
  {
  }

  lemma TeardownNoRtp(c: Client, open: set<int>, r: Request) returns (ms: seq<Message>)
    ensures Control(ms) && HandleTeardown(c, open, r).0.log == c.log + ms
  {
    if SessionError(c, r).Some? {
      ms := [Reply(SessionError(c, r).value, r.cseq, NoDetail)];
    } else {
      R.TeardownLog(c, open, r);
      ByeLength(c.video.ssrc);
      ByeLength(c.metadata.ssrc);
      hide Bye;
      ms := R.Farewell(c, r);
    }
  }

  lemma SinceIs(c: Client, c': Client, ms: seq<Message>)
    requires c'.log == c.log + ms
    ensures c.log <= c'.log && Since(c, c') == ms
  {
  }

  /** Messages of a handled request, if any. */
  lemma ConsumeNoRtp(s: Server, i: nat, ch: Choice, t: TrackId, read: Reading)
    requires Shaped(s) && i < MAX_CLIENTS
    ensures var c, c' := s.clients[i], Consume(s.shared, s.clients[i], s.open, read, ch).0;
            c.log <= c'.log && Packets(Since(c, c'), t) == []
  {
    var c := s.clients[i];
    var c' := Consume(s.shared, c, s.open, read, ch).0;
    var ms: seq<Message> := [];
    if NextRequest(c.inbox.rx).Some? && c'.log != c.log {
      ms := RequestNoRtp(s.shared, c, s.open, read(NextRequest(c.inbox.rx).value), ch);
      hide HandleRequest;
    }
    NoRtpNoPackets(ms, t);
    SinceIs(c, c', ms);
  }

  /** A request leaves every track alone that it does not rebuild. */
  lemma RequestKeepsTrack(s: Server, i: nat, ch: Choice, t: TrackId, read: Reading)
    requires Shaped(s) && i < MAX_CLIENTS && NextRequest(s.clients[i].inbox.rx).Some?
    requires !Rebuilds(s, Handle(i, ch), i, t, read)
    ensures var h := HandleRequest(s.shared, s.clients[i], s.open, read(NextRequest(s.clients[i].inbox.rx).value), ch);
            h.Some? ==> h.value.0.GetTrack(t) == s.clients[i].GetTrack(t)
  {
    hide HandleSetup, Prepare, NextRequest;
    var c, r := s.clients[i], read(NextRequest(s.clients[i].inbox.rx).value);
    if Authorised(s.shared, c, ch) && r.verb == Setup {
      var m := SetupShape(s.shared, c, s.open, r, ch);
    } else if Authorised(s.shared, c, ch) && r.verb in {Teardown, Play} {
    } else {
      var m := QuietReply(s.shared, c, s.open, r, ch);
    }
  }

  lemma HandleNumbered(s: Server, i: nat, ch: Choice, t: TrackId, read: Reading)
    requires Shaped(s) && i < MAX_CLIENTS && !Rebuilds(s, Handle(i, ch), i, t, read)
    ensures Numbered(s.clients[i], Consume(s.shared, s.clients[i], s.open, read, ch).0, t)
  {
    var c := s.clients[i];
    var c' := Consume(s.shared, c, s.open, read, ch).0;
    ConsumeNoRtp(s, i, ch, t, read);
    if NextRequest(c.inbox.rx).Some? {
      RequestKeepsTrack(s, i, ch, t, read);
      hide HandleRequest;
    }
    Unnumbered(c, c', t);
  }

  lemma PushNumbered(c: Client, stream: nat, nal: Nal, ts: u32, last: bool, t: TrackId)
    ensures Numbered(c, PushTo(c, stream, nal, ts, last), t)
  {
    var c' := PushTo(c, stream, nal, ts, last);
    if c.tcpFd < 0 || !c.playing || c.streamId != stream || !c.video.active || (c.waitingForSps && NalType(nal) != NAL_SPS) {
      assert Since(c, c') == [];
      Unnumbered(c, c', t);
    } else {
      var fs := Packetize(nal, last);
      RtpSendAllEffect(c.(waitingForSps := false), fs, ts);
      assert Since(c, c') == VideoOut(c, fs, ts);
      StampedNumbered(c, c', fs, ts, t);
    }
  }

  lemma StampedNumbered(c: Client, c': Client, fs: seq<Fragment>, ts: u32, t: TrackId)
    requires c.log <= c'.log && Since(c, c') == VideoOut(c, fs, ts) && c'.metadata == c.metadata
    requires c'.video == c.video.(seqno := Advance(c.video.seqno, |fs|))
    ensures Numbered(c, c', t)
  {
    var q, ssrc := c.video.seqno, c.video.ssrc;
    var ps := Stamp(fs, PT_H264, q, ts, ssrc);
    StampPt(fs, PT_H264, q, ts, ssrc);
    StampLen(fs, PT_H264, q, ts, ssrc);
    PacketsOfWrap(ps, Video, ViaOf(c.video, false), t);
    if t == Metadata {
      Unnumbered(c, c', t);
    } else {
      forall k | 0 <= k < |ps| ensures ps[k].seqno == Advance(q, k) && ps[k].ssrc == ssrc {
        RT.StampAt(fs, PT_H264, q, ts, ssrc, k);
      }
    }
  }

  lemma MetadataNumbered(sh: Shared, c: Client, clock: u64, xml: seq<byte>, t: TrackId)
    ensures var c' := MetadataPacket(sh, c, clock, xml);
            Numbered(c, c', t) && |Packets(Since(c, c'), Metadata)| == 1
  {
    var c' := MetadataPacket(sh, c, clock, xml);
    var p := Packet(true, PT_METADATA, c.metadata.seqno, Ticks(clock, sh.metadataTsBase), c.metadata.ssrc, xml);
    ParseEncode(p);
    var m := RtpOut(Metadata, ViaOf(c.metadata, false), Encode(p));
    assert Since(c, c') == [m];
    assert [m][1..] == [];
    assert forall u :: Packets([m], u) == if u == Metadata then [p] else [];
    AdvanceAdd(c.video.seqno, 0, 0);
    AdvanceAdd(c.metadata.seqno, 0, 0);
  }

  lemma {:induction false} WrapAt(ps: seq<Packet>, t: TrackId, via: Via, k: nat)
    requires forall p :: p in ps ==> p.pt < 0x80
    ensures |Wrap(ps, t, via)| == |ps| && (k < |ps| ==> Wrap(ps, t, via)[k] == RtpOut(t, via, Encode(ps[k])))
  {
    hide Encode;
    if ps != [] {
      WrapAt(ps[1..], t, via, if k == 0 then 0 else k - 1);
    }
  }

  lemma VideoOutAt(c: Client, fs: seq<Fragment>, ts: u32, k: nat)
    ensures |VideoOut(c, fs, ts)| == |fs|
    ensures k < |fs| ==>
              var m := VideoOut(c, fs, ts)[k];
              && m.RtpOut? && m.track == Video && m.via == ViaOf(c.video, false)
              && Parse(m.data) == Some(Packet(fs[k].marker, 96, Advance(c.video.seqno, k), ts, c.video.ssrc, fs[k].payload))
  {
    var ps := Stamp(fs, PT_H264, c.video.seqno, ts, c.video.ssrc);
    StampPt(fs, PT_H264, c.video.seqno, ts, c.video.ssrc);
    StampLen(fs, PT_H264, c.video.seqno, ts, c.video.ssrc);
    WrapAt(ps, Video, ViaOf(c.video, false), k);
    if k < |fs| {
      RT.StampAt(fs, PT_H264, c.video.seqno, ts, c.video.ssrc, k);
      ParseEncode(ps[k]);
    }
    hide Stamp, Wrap, Parse, Encode, Advance;
  }

  /** What the packets of a pushed NAL unit hold, read back, and what else sending them changes: dynamic payload
      type 96, consecutive numbers, one time, and the gate open. */
  lemma VideoHolds(c: Client, stream: nat, nal: Nal, ts: u32, last: bool, k: nat)
    requires c.tcpFd >= 0 && c.playing && c.streamId == stream && c.video.active && (c.waitingForSps ==> nal[0] % 32 == 7)
    ensures var c', fs := PushTo(c, stream, nal, ts, last), Packetize(nal, last);
            && c.log <= c'.log && |c'.log| == |c.log| + |fs|
            && c' == c.(log := c'.log, waitingForSps := false,
                        video := c.video.(seqno := (c.video.seqno as int + |fs|) % 0x1_0000))
            && (k < |fs| ==>
                  var m := c'.log[|c.log| + k];
                  && m.RtpOut? && m.track == Video && m.via == ViaOf(c.video, false)
                  && Parse(m.data) == Some(Packet(fs[k].marker, 96, (c.video.seqno as int + k) % 0x1_0000, ts, c.video.ssrc, fs[k].payload)))
  {
    var fs, d := Packetize(nal, last), c.(waitingForSps := false);
    RtpSendAllEffect(d, fs, ts);
    VideoOutAt(d, fs, ts, k);
    hide RtpSendAll, VideoOut, Packetize, Parse;
  }

  /** What a metadata packet holds, read back, and what else sending it changes: dynamic payload type 107, the
      marker, the clock in ticks of 64-bit arithmetic, the text, and one second more to the next. */
  lemma MetadataHolds(sh: Shared, c: Client, clock: u64, xml: seq<byte>)
    ensures var c' := MetadataPacket(sh, c, clock, xml);
            && |c'.log| == |c.log| + 1 && c.log <= c'.log
            && var m := c'.log[|c.log|];
               && m.RtpOut? && m.track == Metadata && m.via == ViaOf(c.metadata, false)
               && Parse(m.data) == Some(Packet(true, 107, c.metadata.seqno,
                    (clock as int + sh.metadataTsBase as int) % 0x1_0000_0000_0000_0000 * 9 % 0x1_0000_0000_0000_0000
                    / 100 % 0x1_0000_0000, c.metadata.ssrc, xml))
               && c' == c.(log := c.log + [m], nextMetadataUs := c.nextMetadataUs + 1000000,
                           metadata := c.metadata.(seqno := (c.metadata.seqno as int + 1) % 0x1_0000))
  {
    var p := Packet(true, PT_METADATA, c.metadata.seqno, Ticks(clock, sh.metadataTsBase), c.metadata.ssrc, xml);
    ParseEncode(p);
    hide Encode, Parse;
  }

  lemma StepNumbered(s: Server, e: Event, i: nat, t: TrackId, read: Reading)
    requires Shaped(s) && Connected(s, i) && !Rebuilds(s, e, i, t, read)
    ensures Numbered(s.clients[i], Step(s, e, read).clients[i], t) && Connected(Step(s, e, read), i)
  {
    hide Numbered, HandleRequest, PushTo;
    var c, c' := s.clients[i], Step(s, e, read).clients[i];
    R.ReceivedGrows(s, e, i, read);
    if e.Handle? && e.i == i {
      HandleNumbered(s, i, e.choice, t, read);
    } else if e.SendMetadata? && e.i == i {
      MetadataNumbered(s.shared, c, e.clock, e.xml, t);
    } else if e.Push? && c' != c {
      PushNumbered(c, e.stream, e.nal, Ticks(e.pts, s.shared.videoTsBase[e.stream]), e.last, t);
    } else {
      assert Since(c, c') == [];
      Unnumbered(c, c', t);
    }
  }

  /** RTP identity: over any run that does not rebuild the track, its packets carry consecutive
      sequence numbers modulo 65536 and one SSRC, whatever other tracks, clients and streams do. */
  lemma {:induction false} RunNumbered(s: Server, es: seq<Event>, i: nat, t: TrackId, read: Reading)
    requires Shaped(s) && Connected(s, i) && Kept(s, es, i, t, read)
    ensures Numbered(s.clients[i], Run(s, es, read).clients[i], t)
    decreases |es|
  {
    var c := s.clients[i];
    if es == [] {
      assert Since(c, c) == [];
      Unnumbered(c, c, t);
    } else {
      var s1 := Step(s, es[0], read);
      StepNumbered(s, es[0], i, t, read);
      RunNumbered(s1, es[1..], i, t, read);
      NumberedTrans(c, s1.clients[i], Run(s, es, read).clients[i], t);
    }
  }

  /** A successful SETUP starts at sequence number 0 with the SSRC just drawn. */
  lemma SetupStartsStream(sh: Shared, c: Client, open: set<int>, r: Request, ch: Choice)
    requires StreamEnabled(sh, r.stream) && Prepare(r.transport, ch.attempts).Ready?
    ensures var x := HandleSetup(sh, c, open, r, ch).0.GetTrack(SetupTrack(r));
            x.active && x.seqno == 0 && x.ssrc == ch.ssrc
  {
    hide Prepare;
  }

  /** The next request of client `i` is a SETUP of track `t` that will succeed. */
  predicate SetsUp(s: Server, i: nat, ch: Choice, t: TrackId, read: Reading) {
    && Connected(s, i) && NextRequest(s.clients[i].inbox.rx).Some? && Authorised(s.shared, s.clients[i], ch)
    && var r := read(NextRequest(s.clients[i].inbox.rx).value);
       && r.verb == Setup && SetupTrack(r) == t && StreamEnabled(s.shared, r.stream)
       && Prepare(r.transport, ch.attempts).Ready?
  }

  lemma SetupStep(s: Server, i: nat, ch: Choice, t: TrackId, read: Reading)
    requires Shaped(s) && SetsUp(s, i, ch, t, read)
    ensures var s1 := Step(s, Handle(i, ch), read);
            && Connected(s1, i) && s1.clients[i].GetTrack(t).active
            && s1.clients[i].GetTrack(t).seqno == 0 && s1.clients[i].GetTrack(t).ssrc == ch.ssrc
  {
    hide HandleSetup, Prepare, NextRequest;
    var c, r := s.clients[i], read(NextRequest(s.clients[i].inbox.rx).value);
    SetupStartsStream(s.shared, c, s.open, r, ch);
    var m := SetupShape(s.shared, c, s.open, r, ch);
  }

  /** The k-th packet a track sends after a successful SETUP, counting from 0, has sequence number k modulo
      65536 and the SSRC drawn then, up to the next event that rebuilds the track. */
  lemma NumberedFromSetup(s: Server, i: nat, ch: Choice, t: TrackId, es: seq<Event>, read: Reading)
    requires Shaped(s) && SetsUp(s, i, ch, t, read) && Kept(Step(s, Handle(i, ch), read), es, i, t, read)
    ensures var s1 := Step(s, Handle(i, ch), read);
            var c, c' := s1.clients[i], Run(s1, es, read).clients[i];
            && c.log <= c'.log
            && forall k :: 0 <= k < |Packets(Since(c, c'), t)| ==>
                 Packets(Since(c, c'), t)[k].seqno as int == k % 0x1_0000 && Packets(Since(c, c'), t)[k].ssrc == ch.ssrc
  {
    SetupStep(s, i, ch, t, read);
    hide Step, Run, Kept, SetsUp, Packets, Since;
    RunNumbered(Step(s, Handle(i, ch), read), es, i, t, read);
  }

  // ----- metadata pacing -----

  /** The events that restart the metadata clock of a connection. */
  predicate Restarts(s: Server, e: Event, i: nat, read: Reading)
    requires i < |s.clients|
  {
    match e
    case Shutdown => true
    case Hangup(j) => j == i
    case Handle(j, ch) =>
      && j == i && NextRequest(s.clients[i].inbox.rx).Some? && Authorised(s.shared, s.clients[i], ch)
      && var r := read(NextRequest(s.clients[i].inbox.rx).value);
         r.verb == Play && SessionError(s.clients[i], r).None?
    case _ => false
  }

  predicate Unrestarted(s: Server, es: seq<Event>, i: nat, read: Reading)
    requires Shaped(s) && i < MAX_CLIENTS
    decreases |es|
  {
    es == [] || (!Restarts(s, es[0], i, read) && Unrestarted(Step(s, es[0], read), es[1..], i, read))
  }

  /** The schedule moved one second for each packet sent, and for nothing else. */
  predicate Paced(c: Client, c': Client) {
    && c.log <= c'.log
    && c'.nextMetadataUs == c.nextMetadataUs + METADATA_INTERVAL_US * |Packets(Since(c, c'), Metadata)|
  }

  lemma RequestKeepsSchedule(s: Server, i: nat, ch: Choice, read: Reading)
    requires Shaped(s) && i < MAX_CLIENTS && NextRequest(s.clients[i].inbox.rx).Some?
    requires !Restarts(s, Handle(i, ch), i, read)
    ensures var h := HandleRequest(s.shared, s.clients[i], s.open, read(NextRequest(s.clients[i].inbox.rx).value), ch);
            h.Some? ==> h.value.0.nextMetadataUs == s.clients[i].nextMetadataUs
  {
    var c, r := s.clients[i], read(NextRequest(s.clients[i].inbox.rx).value);
    if Authorised(s.shared, c, ch) && r.verb == Setup {
      var m := SetupShape(s.shared, c, s.open, r, ch);
      hide HandleSetup, Prepare;
    } else if Authorised(s.shared, c, ch) && r.verb in {Teardown, Play} {
    } else {
      var m := QuietReply(s.shared, c, s.open, r, ch);
    }
  }

  lemma HandlePaced(s: Server, i: nat, ch: Choice, read: Reading)
    requires Shaped(s) && i < MAX_CLIENTS && !Restarts(s, Handle(i, ch), i, read)
    ensures Paced(s.clients[i], Consume(s.shared, s.clients[i], s.open, read, ch).0)
  {
    var c := s.clients[i];
    var c' := Consume(s.shared, c, s.open, read, ch).0;
    ConsumeNoRtp(s, i, ch, Metadata, read);
    if NextRequest(c.inbox.rx).Some? {
      RequestKeepsSchedule(s, i, ch, read);
      hide HandleRequest;
    }
  }

  lemma StepPaced(s: Server, e: Event, i: nat, read: Reading)
    requires Shaped(s) && Connected(s, i) && !Restarts(s, e, i, read)
    ensures Paced(s.clients[i], Step(s, e, read).clients[i]) && Connected(Step(s, e, read), i)
  {
    hide Consume, PushTo, Ticks, Packets;
    var c, c' := s.clients[i], Step(s, e, read).clients[i];
    R.ReceivedGrows(s, e, i, read);
    if e.Handle? && e.i == i {
      HandlePaced(s, i, e.choice, read);
    } else if e.SendMetadata? && e.i == i {
      MetadataNumbered(s.shared, c, e.clock, e.xml, Metadata);
    } else if e.Push? && c' != c {
      var ts := Ticks(e.pts, s.shared.videoTsBase[e.stream]);
      PushNumbered(c, e.stream, e.nal, ts, e.last, Metadata);
      PushKeepsSchedule(c, e.stream, e.nal, ts, e.last);
    } else {
      NothingSent(c);
    }
  }

  lemma NothingSent(c: Client)
    ensures Since(c, c) == [] && Packets([], Metadata) == []
  {
  }

  lemma PushKeepsSchedule(c: Client, stream: nat, nal: Nal, ts: u32, last: bool)
    ensures var c' := PushTo(c, stream, nal, ts, last);
            c'.nextMetadataUs == c.nextMetadataUs && c.log <= c'.log && Packets(Since(c, c'), Metadata) == []
  {
    var c' := PushTo(c, stream, nal, ts, last);
    if c' != c {
      var fs := Packetize(nal, last);
      RtpSendAllEffect(c.(waitingForSps := false), fs, ts);
      assert Since(c, c') == VideoOut(c, fs, ts);
      StampPt(fs, PT_H264, c.video.seqno, ts, c.video.ssrc);
      PacketsOfWrap(Stamp(fs, PT_H264, c.video.seqno, ts, c.video.ssrc), Video, ViaOf(c.video, false), Metadata);
    } else {
      assert Since(c, c') == [];
    }
  }

  /** From any state to the next PLAY, the schedule is the starting one plus a second per packet. */
  lemma {:induction false} RunPaced(s: Server, es: seq<Event>, i: nat, read: Reading)
    requires Shaped(s) && Connected(s, i) && Unrestarted(s, es, i, read)
    ensures Paced(s.clients[i], Run(s, es, read).clients[i])
    decreases |es|
  {
    var c := s.clients[i];
    if es == [] {
      assert Since(c, c) == [];
    } else {
      var s1 := Step(s, es[0], read);
      StepPaced(s, es[0], i, read);
      RunPaced(s1, es[1..], i, read);
      SinceTrans(c, s1.clients[i], Run(s, es, read).clients[i], Metadata);
    }
  }

  lemma {:induction false} RunConnected(s: Server, es: seq<Event>, i: nat, read: Reading)
    requires Shaped(s) && Connected(s, i) && Unrestarted(s, es, i, read)
    ensures Connected(Run(s, es, read), i)
    decreases |es|
  {
    hide Step, Restarts;
    if es != [] {
      StepPaced(s, es[0], i, read);
      RunConnected(Step(s, es[0], read), es[1..], i, read);
    }
  }

  lemma PlayConnects(s: Server, i: nat, ch: Choice, read: Reading)
    requires Shaped(s) && Plays(s, i, ch, read)
    ensures Connected(Step(s, Handle(i, ch), read), i)
  {
    PlayClosesGate(s, i, ch, read);
    hide Step, Plays;
  }

  /** Packet k (counting from 1) is never sent before the PLAY time plus k - 1 seconds, and late
      polls do not shift the schedule. */
  lemma NeverEarly(s: Server, es: seq<Event>, i: nat, now: nat, clock: u64, xml: seq<byte>, read: Reading)
    requires Shaped(s) && Connected(s, i) && Unrestarted(s, es, i, read)
    requires Legal(s, es + [SendMetadata(i, now, clock, xml)], read)
    ensures var c, c' := s.clients[i], Run(s, es, read).clients[i];
            && c.log <= c'.log
            && now >= c.nextMetadataUs + METADATA_INTERVAL_US * |Packets(Since(c, c'), Metadata)|
  {
    var e := SendMetadata(i, now, clock, xml);
    RunAppend(s, es, [e], read);
    assert [e][0] == e;
    RunPaced(s, es, i, read);
  }

  /** From a successful PLAY to the next one or a reset the schedule is the time of the PLAY plus a second
      for each metadata packet sent since. */
  lemma PacedFromPlay(s: Server, i: nat, ch: Choice, es: seq<Event>, read: Reading)
    requires Shaped(s) && Plays(s, i, ch, read) && Unrestarted(Step(s, Handle(i, ch), read), es, i, read)
    ensures var s1 := Step(s, Handle(i, ch), read);
            var c, c' := s1.clients[i], Run(s1, es, read).clients[i];
            && c.log <= c'.log
            && c'.nextMetadataUs == ch.now + METADATA_INTERVAL_US * |Packets(Since(c, c'), Metadata)|
  {
    PlayClosesGate(s, i, ch, read);
    hide Step, Run, Unrestarted, Plays, Packets, Since;
    RunPaced(Step(s, Handle(i, ch), read), es, i, read);
  }

  /** Packet k after a PLAY, counting from 0, is never sent before the PLAY plus k seconds. */
  lemma NeverEarlyAfterPlay(s: Server, i: nat, ch: Choice, es: seq<Event>, now: nat, clock: u64, xml: seq<byte>, read: Reading)
    requires Shaped(s) && Plays(s, i, ch, read) && Unrestarted(Step(s, Handle(i, ch), read), es, i, read)
    requires Legal(Step(s, Handle(i, ch), read), es + [SendMetadata(i, now, clock, xml)], read)
    ensures var s1 := Step(s, Handle(i, ch), read);
            var c, c' := s1.clients[i], Run(s1, es, read).clients[i];
            c.log <= c'.log && now >= ch.now + METADATA_INTERVAL_US * |Packets(Since(c, c'), Metadata)|
  {
    PlayClosesGate(s, i, ch, read);
    hide Step, Run, Unrestarted, Plays, Packets, Since, Legal;
    NeverEarly(Step(s, Handle(i, ch), read), es, i, now, clock, xml, read);
  }
}

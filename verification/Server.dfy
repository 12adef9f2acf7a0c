/** The server in its imperative form: structures updated in place, refining `Session` and `Poll`. */
module RtspServer {
  import opened Bytes
  import opened Rtp
  import opened Framing
  import opened Session
  import P = Poll
  import I = Invariants
  import opened Replies
  import W = Wire
  import opened Sockets

  /** The descriptor table. */
  class Kernel {
    var open: set<int>

    constructor ()
      ensures open == {}
    {
      open := {};
    }

    /** `close`, when the descriptor is one. */
    method Close(fd: int)
      modifies this
      ensures open == old(open) - ({fd} - {-1})
    {
      if fd >= 0 {
        open := open - {fd};
      } else {
        open := open - ({fd} - {-1});
      }
    }

    /** A descriptor returned by `socket` or `accept`; -1 for failure. */
    method Opened(fd: int)
      modifies this
      ensures open == old(open) + ({fd} - {-1})
    {
      open := open + ({fd} - {-1});
    }
  }

  /** `rtsp_track_t` */
  class TrackSlot {
    var active: bool
    var interleaved: bool
    var rtpChannel: byte
    var rtcpChannel: byte
    var rtpFd: int
    var rtcpFd: int
    var rtpPort: u16
    var rtcpPort: u16
    var ssrc: u32
    var seqno: u16

    constructor ()
      ensures State() == CLOSED_TRACK
    {
      active, interleaved, rtpChannel, rtcpChannel, rtpPort, rtcpPort, ssrc, seqno := false, false, 0, 0, 0, 0, 0, 0;
      rtpFd, rtcpFd := -1, -1;
    }

    function State(): Track
      reads this
    {
      Track(active, interleaved, rtpChannel, rtcpChannel, rtpFd, rtcpFd, rtpPort, rtcpPort, ssrc, seqno)
    }

    /** The `memset` at the end of `track_close`. */
    method Clear()
      modifies this
      ensures State() == CLOSED_TRACK
    {
      active, interleaved, rtpChannel, rtcpChannel, rtpPort, rtcpPort, ssrc, seqno := false, false, 0, 0, 0, 0, 0, 0;
      rtpFd, rtcpFd := -1, -1;
    }

    /** `track_close` */
    method Close(k: Kernel)
      modifies this, k
      ensures State() == CLOSED_TRACK
      ensures k.open == old(k.open) - TrackFds(old(State()))
    {
      k.Close(rtpFd);
      k.Close(rtcpFd);
      Clear();
    }

    /** `bind_udp_pair`: sixteen rounds of two sockets and two binds. */
    method BindUdpPair(k: Kernel, attempts: seq<Attempt>) returns (port: int)
      requires FreshAttempts(k.open, attempts) && State() == CLOSED_TRACK
      modifies this, k
      ensures var (p, pair) := Session.BindUdpPair(attempts);
              && port == p
              && State() == (if pair.Some? then CLOSED_TRACK.(rtpFd := pair.value.0, rtcpFd := pair.value.1) else CLOSED_TRACK)
              && k.open == old(k.open) + TrackFds(State())
              && BindsFirstGood(attempts, port, pair)
    {
      BindExactly(attempts);
      hide BindsFirstGood;
      ghost var open0 := k.open;
      var attempt := 0;
      while attempt < BIND_ATTEMPTS
        invariant 0 <= attempt <= |attempts|
        invariant Session.BindUdpPair(attempts) == Session.BindUdpPair(attempts[attempt..])
        invariant State() == CLOSED_TRACK && k.open == open0
      {
        var a := attempts[attempt];
        assert a in attempts;
        k.Opened(a.rtp);
        k.Opened(a.rtcp);
        if a.rtp >= 0 && a.rtcp >= 0 && a.port.Some? && a.second {
          rtpFd, rtcpFd := a.rtp, a.rtcp;
          return (a.port.value + 1) % 0x1_0000 - 1;
        }
        k.Close(a.rtp);
        k.Close(a.rtcp);
        assert attempts[attempt..][1..] == attempts[attempt + 1..];
        attempt := attempt + 1;
      }
      return -1;
    }

    /** The part of `handle_setup` that closes and rebuilds the track. */
    method Rebuild(k: Kernel, transport: Transport, attempts: seq<Attempt>) returns (p: Prepared)
      requires FreshAttempts(k.open - TrackFds(State()), attempts)
      modifies this, k
      ensures p == Prepare(transport, attempts)
      ensures if p.Unusable? then State() == old(State()) && k.open == old(k.open)
              else State() == p.x && k.open == old(k.open) - TrackFds(old(State())) + TrackFds(p.x)
    {
      match transport
      case TcpNoChannels => p := Unusable;
      case UdpNoPorts => p := Unusable;
      case Tcp(a, b_) =>
        var b := Second(a, b_);
        Close(k);
        interleaved := true;
        rtpChannel := a % 0x100;
        rtcpChannel := b % 0x100;
        p := Ready(State(), true, a, b, -1);
      case Udp(a, b_) =>
        var b := Second(a, b_);
        Close(k);
        var port := BindUdpPair(k, attempts);
        if port < 0 {
          p := NoPorts(State());
        } else {
          rtpPort := a % 0x1_0000;
          rtcpPort := b % 0x1_0000;
          p := Ready(State(), false, a, b, port);
        }
    }

    /** The end of `handle_setup`: a new RTP stream. */
    method Start(ssrc: u32)
      modifies this
      ensures State() == old(State()).(active := true, ssrc := ssrc, seqno := 0)
    {
      active := true;
      this.ssrc := ssrc;
      seqno := 0;
    }
  }

  datatype Datagram = Datagram(fd: int, port: u16, data: seq<byte>)

  /** The octets a message puts on the TCP connection. */
  function TcpOctets(m: Message): seq<byte> {
    match m
    case Reply(code, cseq, d) => W.Join(Lines(code, cseq, d)) + W.CRLF + W.CRLF + Body(d)
    case RtpOut(_, via, data) => if via.OnTcp? then FrameOctets(via.channel, data) else []
    case RtcpOut(_, via, data) => if via.OnTcp? then FrameOctets(via.channel, data) else []
  }

  function FrameOctets(ch: byte, data: seq<byte>): seq<byte> {
    [W.DOLLAR, ch, |data| / 0x100 % 0x100, |data| % 0x100] + data
  }

  function TcpLog(ms: seq<Message>): seq<byte> {
    if ms == [] then [] else TcpLog(ms[..|ms| - 1]) + TcpOctets(ms[|ms| - 1])
  }

  function UdpOut(m: Message): seq<Datagram> {
    if m.Reply? || m.via.OnTcp? then [] else [Datagram(m.via.fd, m.via.port, m.data)]
  }

  function UdpLog(ms: seq<Message>): seq<Datagram> {
    if ms == [] then [] else UdpLog(ms[..|ms| - 1]) + UdpOut(ms[|ms| - 1])
  }

  lemma LogSnoc(ms: seq<Message>, m: Message)
    ensures TcpLog(ms + [m]) == TcpLog(ms) + TcpOctets(m)
    ensures UdpLog(ms + [m]) == UdpLog(ms) + UdpOut(m)
  {
    assert (ms + [m])[..|ms|] == ms;
  }

  /** The fragments still to go when the loop is at `off`. */
  ghost function Unsent(nal: Nal, off: nat, last: bool): seq<Fragment>
    requires off >= 1
  {
    if off < |nal| then FuFragments(nal, off, last) else []
  }

  lemma FuStart(nal: Nal, last: bool)
    requires |nal| > 1
    ensures Unsent(nal, 1, last) == FuFragments(nal, 1, last)
  {
  }

  lemma NextFragment(c: Client, nal: Nal, off: nat, last: bool, ts: u32)
    requires 1 <= off < |nal|
    ensures var f := FuFragment(nal, off, last);
            RtpSendAll(c, Unsent(nal, off, last), ts)
            == RtpSendAll(Session.RtpSend(c, Video, PT_H264, f.marker, ts, f.payload), Unsent(nal, off + FU_A_DATA, last), ts)
  {
    var f, rest := FuFragment(nal, off, last), Unsent(nal, off + FU_A_DATA, last);
    assert FuFragments(nal, off, last) == [f] + FuFragments(nal, off + ChunkLen(nal, off), last);
    assert FuFragments(nal, |nal|, last) == [];
    assert Unsent(nal, off, last) == [f] + rest;
    assert ([f] + rest)[1..] == rest;
  }

  lemma WholeNal(c: Client, nal: Nal, last: bool, ts: u32)
    requires |nal| <= MAX_PAYLOAD
    ensures RtpSendAll(c, Packetize(nal, last), ts) == Session.RtpSend(c, Video, PT_H264, last, ts, nal)
  {
    assert Packetize(nal, last)[1..] == [];
  }

  lemma NothingUnsent(c: Client, nal: Nal, off: nat, last: bool, ts: u32)
    requires off >= |nal|
    ensures RtpSendAll(c, Unsent(nal, off, last), ts) == c
  {
  }

  /** Setting the end bit. */
  lemma HeaderBits(nal: Nal, start: bool, end: bool)
    ensures FuHeader(nal, start, end) as int == FuHeader(nal, start, false) as int + if end then 0x40 else 0
  {
  }

  /** Clearing the start bit. */
  lemma HeaderAfter(nal: Nal, start: bool, end: bool)
    ensures FuHeader(nal, start, end) % 0x80 == FuHeader(nal, false, end)
  {
  }

  lemma NothingSent()
    ensures TcpLog([]) == [] && UdpLog([]) == []
  {
  }

  /** `rtsp_client_t`. `log` and the history in `State().inbox` are ghosts; `conn` and `datagrams` are
      what the peer's end of the sockets has been given. */
  class ClientSlot {
    var tcpFd: int
    var loopback: bool
    var streamId: nat
    var hasSession: bool
    var sessionId: u32
    var playing: bool
    var waitingForSps: bool
    var nextMetadataUs: nat
    const video: TrackSlot
    const metadata: TrackSlot
    const rxbuf: array<byte>
    var rxlen: nat
    const conn: Socket
    var datagrams: seq<Datagram>
    ghost var log: seq<Message>
    ghost var handled: seq<seq<byte>>
    ghost var received: seq<byte>
    ghost var discards: nat

    ghost function Repr(): set<object> {
      {this, video, metadata, rxbuf, conn}
    }

    ghost predicate Valid()
      reads this, video, metadata, rxbuf, conn
    {
      && video != metadata
      && rxbuf.Length == RXBUF_SIZE && rxlen <= RX_LIMIT
      && conn.sent == TcpLog(log) && datagrams == UdpLog(log)
    }

    ghost function State(): Client
      reads this, video, metadata, rxbuf, conn
      requires Valid()
    {
      Client(tcpFd, loopback, streamId, hasSession, sessionId, playing, waitingForSps, nextMetadataUs,
             video.State(), metadata.State(), Inbox(rxbuf[..rxlen], handled, received, discards), log)
    }

    function GetTrack(id: TrackId): TrackSlot {
      if id == Video then video else metadata
    }

    /** `client_init` of a new slot. */
    constructor ()
      ensures Valid() && State() == FREE_SLOT && fresh(Repr())
    {
      tcpFd, loopback, streamId, hasSession, sessionId := -1, false, 0, false, 0;
      playing, waitingForSps, nextMetadataUs, rxlen := false, false, 0, 0;
      video := new TrackSlot();
      metadata := new TrackSlot();
      rxbuf := new byte[RXBUF_SIZE];
      conn := new Socket(0);
      datagrams, log, handled, received, discards := [], [], [], [], 0;
    }

    // ----- sending -----

    /** `reply`, and the two writes of `handle_describe`. */
    method SendReply(code: nat, cseq: Token, d: Detail)
      requires Valid()
      modifies this, conn
      ensures Valid() && State() == old(State()).Send(Reply(code, cseq, d))
    {
      var m := Reply(code, cseq, d);
      var head, body := W.Join(Lines(code, cseq, d)) + W.CRLF + W.CRLF, Body(d);
      hide TcpLog, UdpLog, Lines, Body, W.Join;
      assert TcpOctets(m) == head + body;
      LogSnoc(log, m);
      conn.SendAll(head);
      conn.SendAll(body);
      Assoc(TcpLog(log), head, body);
      log := log + [m];
    }

    /** The interleaved branch of `track_send`: a frame, unless it does not fit the buffer. */
    method SendFrame(ch: byte, data: seq<byte>) returns (sent: bool)
      modifies conn
      ensures sent == (|data| <= 12 + MAX_PAYLOAD)
      ensures conn.sent == old(conn.sent) + if sent then FrameOctets(ch, data) else []
    {
      var frame := new byte[4 + 12 + MAX_PAYLOAD];
      if |data| > frame.Length - 4 { return false; }
      frame[0] := W.DOLLAR;
      frame[1] := ch;
      frame[2] := |data| / 0x100 % 0x100;
      frame[3] := |data| % 0x100;
      forall k | 0 <= k < |data| { frame[4 + k] := data[k]; }
      assert frame[..4 + |data|] == FrameOctets(ch, data);
      conn.SendAll(frame[..4 + |data|]);
      return true;
    }

    /** Both branches of `track_send`, on the sockets. */
    method Transmit(via: Via, data: seq<byte>) returns (sent: bool)
      modifies this`datagrams, conn
      ensures sent == !(via.OnTcp? && |data| > 12 + MAX_PAYLOAD)
      ensures conn.sent == old(conn.sent) + if sent && via.OnTcp? then FrameOctets(via.channel, data) else []
      ensures datagrams == old(datagrams) + if via.OnTcp? then [] else [Datagram(via.fd, via.port, data)]
    {
      match via
      case OnTcp(ch) => sent := SendFrame(ch, data);
      case OnUdp(fd, port) =>
        datagrams := datagrams + [Datagram(fd, port, data)];
        sent := true;
    }

    /** `track_send`; what does not fit the frame buffer is dropped. */
    method TrackSend(id: TrackId, rtcp: bool, data: seq<byte>)
      requires Valid()
      modifies this, conn
      ensures Valid()
      ensures var via := ViaOf(old(State()).GetTrack(id), rtcp);
              State() == if via.OnTcp? && |data| > 12 + MAX_PAYLOAD then old(State())
                         else old(State()).Send(if rtcp then RtcpOut(id, via, data) else RtpOut(id, via, data))
    {
      hide TcpLog, UdpLog, Lines, Body;
      var via := ViaOf(GetTrack(id).State(), rtcp);
      ghost var m := if rtcp then RtcpOut(id, via, data) else RtpOut(id, via, data);
      LogSnoc(log, m);
      var sent := Transmit(via, data);
      if sent {
        log := log + [m];
      }
    }

    /** `rtp_send` */
    method RtpSend(id: TrackId, pt: nat, marker: bool, ts: u32, prefix: seq<byte>, payload: seq<byte>)
      requires Valid() && pt < 0x80 && |prefix| + |payload| <= MAX_PAYLOAD
      modifies this, video, metadata, conn
      ensures Valid() && State() == Session.RtpSend(old(State()), id, pt, marker, ts, prefix + payload)
    {
      hide TcpLog, UdpLog, Encode, Lines, Body, Advance, TcpOctets, UdpOut;
      var t := GetTrack(id);
      var pkt := BuildPacket(t.seqno, t.ssrc, pt, marker, ts, prefix, payload);
      t.seqno := Advance(t.seqno, 1);
      TrackSend(id, false, pkt);
    }

    /** The fixed header `rtp_send` writes. */
    static method PutHeader(pkt: array<byte>, seqno: u16, ssrc: u32, pt: nat, marker: bool, ts: u32)
      requires pt < 0x80 && pkt.Length >= 12
      modifies pkt
      ensures pkt[..12] == [0x80, (if marker then 0x80 else 0) + pt] + BE16(seqno) + BE32(ts) + BE32(ssrc)
    {
      pkt[0] := 0x80;
      pkt[1] := (if marker then 0x80 else 0) + pt;
      pkt[2] := seqno / 0x100;
      pkt[3] := seqno % 0x100;
      pkt[4] := ts / 0x100_0000;
      pkt[5] := ts / 0x1_0000 % 0x100;
      pkt[6] := ts / 0x100 % 0x100;
      pkt[7] := ts % 0x100;
      pkt[8] := ssrc / 0x100_0000;
      pkt[9] := ssrc / 0x1_0000 % 0x100;
      pkt[10] := ssrc / 0x100 % 0x100;
      pkt[11] := ssrc % 0x100;
    }

    /** The packet buffer of `rtp_send`. */
    static method BuildPacket(seqno: u16, ssrc: u32, pt: nat, marker: bool, ts: u32, prefix: seq<byte>, payload: seq<byte>)
      returns (data: seq<byte>)
      requires pt < 0x80 && |prefix| + |payload| <= MAX_PAYLOAD
      ensures data == Encode(Packet(marker, pt, seqno, ts, ssrc, prefix + payload))
    {
      var pkt := new byte[12 + MAX_PAYLOAD];
      PutHeader(pkt, seqno, ssrc, pt, marker, ts);
      ghost var head := pkt[..12];
      hide BE16, BE32;
      forall k | 0 <= k < |prefix| { pkt[12 + k] := prefix[k]; }
      forall k | 0 <= k < |payload| { pkt[12 + |prefix| + k] := payload[k]; }
      data := pkt[..12 + |prefix| + |payload|];
      assert data == head + (prefix + payload);
    }

    /** `send_bye`, for one turn of the loop in TEARDOWN. */
    method SendBye(id: TrackId)
      requires Valid()
      modifies this, conn
      ensures Valid() && State() == Session.SendBye(old(State()), id)
    {
      var t := GetTrack(id);
      if t.active {
        TrackSend(id, true, Bye(t.ssrc));
      }
    }

    /** `send_metadata` and the line after it. */
    method SendMetadata(sh: Shared, clock: u64, xml: seq<byte>)
      requires Valid() && |xml| <= MAX_PAYLOAD
      modifies this, video, metadata, conn
      ensures Valid() && State() == MetadataPacket(sh, old(State()), clock, xml)
    {
      hide TcpLog, UdpLog, Ticks, Lines, Body, Encode, Advance;
      assert [] + xml == xml;
      RtpSend(Metadata, PT_METADATA, true, Ticks(clock, sh.metadataTsBase), [], xml);
      nextMetadataUs := nextMetadataUs + METADATA_INTERVAL_US;
    }

    /** `send_video_nal` */
    method SendVideoNal(nal: Nal, ts: u32, last: bool)
      requires Valid()
      modifies this, video, metadata, conn
      ensures Valid() && State() == RtpSendAll(old(State()), Packetize(nal, last), ts)
    {
      if |nal| <= MAX_PAYLOAD {
        assert [] + nal == nal;
        WholeNal(State(), nal, last, ts);
        RtpSend(Video, PT_H264, last, ts, [], nal);
      } else {
        SendFragments(nal, ts, last);
      }
    }

    /** The fragmenting loop of `send_video_nal`. */
    method SendFragments(nal: Nal, ts: u32, last: bool)
      requires Valid() && |nal| > MAX_PAYLOAD
      modifies this, video, metadata, conn
      ensures Valid() && State() == RtpSendAll(old(State()), FuFragments(nal, 1, last), ts)
    {
      hide RtpSendAll, TcpLog, UdpLog, FuFragments, Packetize, Session.RtpSend, FuFragment, FuIndicator, FuHeader, Valid, State, Unsent;
      ghost var goal := RtpSendAll(State(), FuFragments(nal, 1, last), ts);
      FuStart(nal, last);
      var fu := StartFu(nal);
      var off := 1;
      while off < |nal|
        invariant off >= 1 && Valid()
        invariant fu[0] == FuIndicator(nal) && (off < |nal| ==> fu[1] == FuHeader(nal, off == 1, false))
        invariant RtpSendAll(State(), Unsent(nal, off, last), ts) == goal
      {
        NextFragment(State(), nal, off, last, ts);
        SendFragment(nal, off, ts, last, fu);
        off := off + FU_A_DATA;
      }
      NothingUnsent(State(), nal, off, last, ts);
    }

    /** The two octets of the first fragment. */
    method StartFu(nal: Nal) returns (fu: array<byte>)
      ensures fresh(fu) && fu.Length == 2 && fu[0] == FuIndicator(nal) && fu[1] == FuHeader(nal, true, false)
    {
      fu := new byte[2];
      fu[0], fu[1] := nal[0] / 0x20 * 0x20 + NAL_FU_A, 0x80 + nal[0] % 0x20;
    }

    /** The body of the loop in `send_video_nal`. */
    method SendFragment(nal: Nal, off: nat, ts: u32, last: bool, fu: array<byte>)
      requires Valid() && 1 <= off < |nal|
      requires fu.Length == 2 && fu != rxbuf
      requires fu[0] == FuIndicator(nal) && fu[1] == FuHeader(nal, off == 1, false)
      modifies this, video, metadata, conn, fu
      ensures Valid()
      ensures var f := FuFragment(nal, off, last);
              State() == Session.RtpSend(old(State()), Video, PT_H264, f.marker, ts, f.payload)
      ensures fu[0] == FuIndicator(nal) && (off + FU_A_DATA < |nal| ==> fu[1] == FuHeader(nal, false, false))
    {
      hide TcpLog, UdpLog, Session.RtpSend, State, Valid, FuIndicator, FuHeader;
      var chunk := if |nal| - off < FU_A_DATA then |nal| - off else FU_A_DATA;
      var end := off + chunk == |nal|;
      HeaderBits(nal, off == 1, end);
      if end {
        fu[1] := fu[1] + 0x40;
      }
      assert fu[..] == [FuIndicator(nal), FuHeader(nal, off == 1, end)];
      RtpSend(Video, PT_H264, last && end, ts, fu[..], nal[off..off + chunk]);
      HeaderAfter(nal, off == 1, end);
      fu[1] := fu[1] % 0x80;
    }

    // ----- sessions -----

    /** `session_reset` */
    method ResetSession(k: Kernel)
      requires Valid()
      modifies this, video, metadata, k
      ensures Valid() && State() == SessionReset(old(State()))
      ensures k.open == old(k.open) - TrackFds(old(State()).video) - TrackFds(old(State()).metadata)
    {
      video.Close(k);
      metadata.Close(k);
      hasSession, playing, waitingForSps := false, false, false;
    }

    /** `client_reset` */
    method Reset(k: Kernel)
      requires Valid()
      modifies Repr(), k
      ensures Valid() && State() == FREE_SLOT
      ensures k.open == old(k.open) - ClientFds(old(State()))
    {
      ResetSession(k);
      k.Close(tcpFd);
      Init();
    }

    /** `client_init` of a slot whose session has been reset. */
    method Init()
      requires Valid() && video.State() == metadata.State() == CLOSED_TRACK
      requires !hasSession && !playing && !waitingForSps
      modifies this, rxbuf, conn
      ensures Valid() && State() == FREE_SLOT
    {
      hide TrackSlot.State, TcpLog, UdpLog;
      NothingSent();
      ClearSockets();
      ClearFields();
      assert rxbuf[..rxlen] == [];
    }

    method ClearFields()
      modifies this`tcpFd, this`loopback, this`streamId, this`sessionId, this`nextMetadataUs, this`rxlen
      modifies this`datagrams, this`log, this`handled, this`received, this`discards
      ensures tcpFd == -1 && !loopback && streamId == 0 && sessionId == 0 && nextMetadataUs == 0 && rxlen == 0
      ensures datagrams == [] && log == [] && handled == [] && received == [] && discards == 0
    {
      tcpFd, loopback, streamId, sessionId, nextMetadataUs, rxlen := -1, false, 0, 0, 0, 0;
      datagrams, log, handled, received, discards := [], [], [], [], 0;
    }

    /** A new connection starts with an empty buffer and nothing sent. */
    method ClearSockets()
      modifies rxbuf, conn
      ensures conn.sent == [] && forall j :: 0 <= j < rxbuf.Length ==> rxbuf[j] == 0
    {
      forall j | 0 <= j < rxbuf.Length { rxbuf[j] := 0; }
      conn.sent := [];
    }

    /** A new connection on a free slot. */
    method Adopt(k: Kernel, fd: int, loopback: bool)
      requires Valid()
      modifies Repr(), k
      ensures Valid() && State() == FREE_SLOT.(tcpFd := fd, loopback := loopback)
      ensures k.open == old(k.open) - ClientFds(old(State()))
    {
      Reset(k);
      tcpFd := fd;
      this.loopback := loopback;
    }

    // ----- requests -----

    /** `session_ok`: replies and returns false when the session is not this client's. */
    method SessionOk(r: Request) returns (ok: bool)
      requires Valid()
      modifies this, conn
      ensures Valid() && ok == SessionError(old(State()), r).None?
      ensures State() == if ok then old(State()) else old(State()).Send(Reply(SessionError(old(State()), r).value, r.cseq, NoDetail))
    {
      ok := true;
      if r.session.None? {
        SendReply(400, r.cseq, NoDetail);
        ok := false;
      } else if !hasSession || r.session.value != sessionId {
        SendReply(454, r.cseq, NoDetail);
        ok := false;
      }
    }

    method HandlePlay(r: Request, ch: Choice)
      requires Valid()
      modifies this, conn
      ensures Valid() && State() == Session.HandlePlay(old(State()), r, ch)
    {
      hide TcpLog, UdpLog, SessionError, TrackSlot.State;
      var ok := SessionOk(r);
      if ok {
        SendReply(200, r.cseq, FromNow);
        playing := true;
        waitingForSps := true;
        nextMetadataUs := ch.now;
      }
    }

    method HandleTeardown(k: Kernel, r: Request)
      requires Valid()
      modifies this, video, metadata, conn, k
      ensures Valid() && (State(), k.open) == Session.HandleTeardown(old(State()), old(k.open), r)
    {
      var ok := SessionOk(r);
      if ok {
        SendBye(Video);
        SendBye(Metadata);
        SendReply(200, r.cseq, NoDetail);
        ResetSession(k);
      }
    }

    /** `handle_setup` */
    method HandleSetup(sh: Shared, k: Kernel, r: Request, ch: Choice)
      requires Valid() && FreshAttempts(k.open - TrackFds(State().GetTrack(SetupTrack(r))), ch.attempts)
      modifies this, video, metadata, conn, k
      ensures Valid() && (State(), k.open) == Session.HandleSetup(sh, old(State()), old(k.open), r, ch)
    {
      hide Prepare, TcpLog, UdpLog;
      if !StreamEnabled(sh, r.stream) {
        SendReply(404, r.cseq, NoDetail);
        return;
      }
      var id := SetupTrack(r);
      var t := GetTrack(id);
      var p := t.Rebuild(k, r.transport, ch.attempts);
      if p.Unusable? {
        SendReply(400, r.cseq, NoDetail);
      } else if p.NoPorts? {
        SendReply(500, r.cseq, NoDetail);
      } else {
        Establish(id, r, p, ch);
      }
    }

    /** The end of `handle_setup`. */
    method Establish(id: TrackId, r: Request, p: Prepared, ch: Choice)
      requires Valid() && p.Ready? && GetTrack(id).State() == p.x
      modifies this, video, metadata, conn
      ensures Valid() && State() == Session.Establish(old(State()), id, r, p, ch)
    {
      hide TcpLog, UdpLog;
      GetTrack(id).Start(ch.ssrc);
      JoinSession(r.stream, ch.sessionId);
      SendReply(200, r.cseq, Session.Session(p.tcp, p.a, p.b, p.port, sessionId));
    }

    method JoinSession(stream: nat, id: u32)
      modifies this`streamId, this`hasSession, this`sessionId
      ensures streamId == stream && hasSession
      ensures sessionId == if old(hasSession) then old(sessionId) else id % 0x8000_0000
    {
      streamId := stream;
      if !hasSession {
        hasSession := true;
        sessionId := id % 0x8000_0000;
      }
    }

    /** `handle_request`; false leaves the request in the buffer. */
    method HandleRequest(sh: Shared, k: Kernel, r: Request, ch: Choice) returns (consumed: bool)
      requires Valid() && FreshAttempts(k.open - TrackFds(State().GetTrack(SetupTrack(r))), ch.attempts)
      modifies this, video, metadata, conn, k
      ensures Valid()
      ensures var h := Session.HandleRequest(sh, old(State()), old(k.open), r, ch);
              consumed == h.Some? && (State(), k.open) == if consumed then h.value else (old(State()), old(k.open))
    {
      hide TcpLog, UdpLog, Session.HandleSetup, Session.HandlePlay, Session.HandleTeardown;
      consumed := true;
      if sh.authEnabled && !loopback && !ch.credentialsOk {
        SendReply(401, r.cseq, Challenge);
        return;
      }
      match r.verb
      case Options => SendReply(200, r.cseq, PublicMethods);
      case Describe =>
        if !StreamEnabled(sh, r.stream) {
          SendReply(404, r.cseq, NoDetail);
        } else if !Cached(sh, r.stream) {
          consumed := false;
        } else {
          SendReply(200, r.cseq, Description(r.uri, sh.sps[r.stream], sh.pps[r.stream], r.stream == 0));
        }
      case Setup => HandleSetup(sh, k, r, ch);
      case Play => HandlePlay(r, ch);
      case GetParameter => SendReply(200, r.cseq, NoDetail);
      case Teardown => HandleTeardown(k, r);
      case Unknown => SendReply(405, r.cseq, NoDetail);
    }

    // ----- the receive buffer -----

    /** The C string in the buffer ends within what was received. */
    ghost predicate Terminated()
      reads this, rxbuf
    {
      rxbuf.Length == RXBUF_SIZE && rxlen <= RX_LIMIT && rxbuf[rxlen] == 0
    }

    /** `strstr(c->rxbuf, "\r\n\r\n")`: the length of the first request, 0 when there is none. */
    method FirstRequest() returns (n: nat)
      requires Terminated()
      ensures n == (match NextRequest(rxbuf[..rxlen]) case None => 0 case Some(req) => |req|)
      ensures n <= rxlen
    {
      ghost var rx := rxbuf[..rxlen];
      ghost var s := CString(rx);
      var i := 0;
      while rxbuf[i] != 0
        decreases |s| - i
        invariant i <= |s|
        invariant forall j :: 0 <= j < i ==> !TerminatorAt(s, j)
      {
        assert i < |s|;
        if rxbuf[i] == 13 && i + 4 <= rxlen && rxbuf[i + 1] == 10 && rxbuf[i + 2] == 13 && rxbuf[i + 3] == 10 {
          Unbroken(rx, i, i + 4);
          FindUnique(s, i);
          return i + 4;
        }
        i := i + 1;
      }
      assert i == |s|;
      n := 0;
    }

    /** `recv` into the free part of the buffer, and the terminator after it. */
    method Fill(data: seq<byte>)
      requires Valid() && |data| <= RX_LIMIT - rxlen
      modifies this`rxlen, this`received, rxbuf
      ensures Valid() && Terminated()
      ensures State() == if data == [] then old(State()) else Append(old(State()), data)
    {
      ghost var rx := rxbuf[..rxlen];
      forall j | 0 <= j < |data| { rxbuf[rxlen + j] := data[j]; }
      rxbuf[rxlen + |data|] := 0;
      rxlen := rxlen + |data|;
      received := received + data;
      assert rxbuf[..rxlen] == rx + data;
      assert rx + [] == rx;
    }

    /** The `memmove` in `drain_requests`, terminator included. */
    method Discharge(n: nat)
      requires Valid() && Terminated() && n <= rxlen
      modifies this`rxlen, this`handled, rxbuf
      ensures Valid() && Terminated()
      ensures State() == old(State()).(inbox := Take(old(State()).inbox, old(rxbuf[..n])))
    {
      ghost var rx := rxbuf[..rxlen];
      handled := handled + [rxbuf[..n]];
      forall j | 0 <= j < rxlen - n + 1 { rxbuf[j] := rxbuf[j + n]; }
      rxlen := rxlen - n;
      assert rxbuf[..rxlen] == rx[n..];
    }

    /** One turn of the loop in `drain_requests`; false when it returns. */
    method DrainOne(sh: Shared, k: Kernel, read: Reading, ghost choices: nat -> Choice, ghost n: nat, ch: Choice) returns (more: bool)
      requires Valid() && Terminated() && ch == choices(n)
      requires P.FairDrain(sh, State(), k.open, read, choices, n)
      modifies Repr(), k
      ensures Valid() && Terminated()
      ensures more ==> rxlen < old(rxlen) && P.FairDrain(sh, State(), k.open, read, choices, n + 1)
      ensures P.Drain(sh, old(State()), old(k.open), read, choices, n)
           == if more then P.Drain(sh, State(), k.open, read, choices, n + 1) else (State(), k.open)
    {
      hide TcpLog, UdpLog, Session.HandleRequest, NextRequest;
      ghost var c, open := State(), k.open;
      var len := FirstRequest();
      if len == 0 { return false; }
      var req := rxbuf[..len];
      ReqIs(c, req, len);
      I.RequestKeepsBuffer(sh, c, open, read(req), ch);
      more := HandleRequest(sh, k, read(req), ch);
      if more {
        assert rxlen == |State().inbox.rx|;
        Discharge(len);
      }
    }

    /** `drain_requests` */
    method DrainRequests(sh: Shared, k: Kernel, read: Reading, choices: nat -> Choice)
      requires Valid() && Terminated() && P.FairDrain(sh, State(), k.open, read, choices, 0)
      modifies Repr(), k
      ensures Valid() && Terminated()
      ensures (State(), k.open) == P.Drain(sh, old(State()), old(k.open), read, choices, 0)
    {
      ghost var goal := P.Drain(sh, State(), k.open, read, choices, 0);
      hide P.Drain, P.FairDrain, TcpLog, UdpLog;
      var n: nat := 0;
      var more := true;
      while more
        invariant Valid() && Terminated()
        invariant more ==> P.FairDrain(sh, State(), k.open, read, choices, n)
        invariant (if more then P.Drain(sh, State(), k.open, read, choices, n) else (State(), k.open)) == goal
        decreases more, rxlen
      {
        more := DrainOne(sh, k, read, choices, n, choices(n));
        n := n + 1;
      }
    }

    /** The body of the client loop in `rtsp_server_poll`. */
    method Poll(sh: Shared, k: Kernel, now: nat, input: P.ClientInput, read: Reading)
      requires Valid() && P.FairClient(sh, State(), k.open, input, read)
      modifies Repr(), k
      ensures Valid()
      ensures (State(), k.open) == P.PollClient(sh, old(State()), old(k.open), now, input, read)
    {
      if tcpFd < 0 {
        return;
      }
      if input.received.Gone? {
        Reset(k);
        return;
      }
      Fill(if input.received.Data? then input.received.octets else []);
      DrainRequests(sh, k, read, input.choices);
      hide P.Drain, P.FairDrain;
      PollTail(sh, now, input.clock, input.xml);
    }

    /** What follows draining: the overflow check and the metadata clock. */
    method PollTail(sh: Shared, now: nat, clock: u64, xml: seq<byte>)
      requires Valid() && |xml| <= MAX_PAYLOAD
      modifies this, video, metadata, conn
      ensures Valid() && State() == P.Tick(sh, P.Trim(old(State())), now, clock, xml)
    {
      hide TcpLog, UdpLog, MetadataPacket;
      assert |State().inbox.rx| == rxlen;
      if rxlen >= RX_LIMIT {
        rxlen := 0;
        discards := discards + 1;
        assert rxbuf[..rxlen] == [];
      }
      if playing && metadata.active && now >= nextMetadataUs {
        SendMetadata(sh, clock, xml);
      }
    }

    /** The body of the client loop in `rtsp_server_push_nal`. */
    method Push(stream: nat, nal: Nal, ts: u32, last: bool)
      requires Valid()
      modifies this, video, metadata, conn
      ensures Valid() && State() == PushTo(old(State()), stream, nal, ts, last)
    {
      if tcpFd < 0 || !playing || streamId != stream || !video.active {
        return;
      }
      if waitingForSps {
        if NalType(nal) != NAL_SPS {
          return;
        }
        waitingForSps := false;
      }
      SendVideoNal(nal, ts, last);
    }
  }

  predicate FreeUpTo(s: Server, i: nat) {
    |s.clients| == MAX_CLIENTS && i <= MAX_CLIENTS && forall j :: 0 <= j < i ==> s.clients[j] == FREE_SLOT
  }

  lemma AllFree(s: Server)
    requires FreeUpTo(s, MAX_CLIENTS)
    ensures s.clients == seq(MAX_CLIENTS, _ => FREE_SLOT)
    ensures AfterClose(s.open, s.clients[MAX_CLIENTS..]) == s.open
  {
  }

  lemma ResetStep(s: Server, i: nat)
    requires FreeUpTo(s, i) && i < MAX_CLIENTS
    ensures var s' := Put(s, i, FREE_SLOT).(open := s.open - ClientFds(s.clients[i]));
            FreeUpTo(s', i + 1) && AfterClose(s'.open, s'.clients[i + 1..]) == AfterClose(s.open, s.clients[i..])
  {
    assert s.clients[i..][1..] == s.clients[i := FREE_SLOT][i + 1..];
  }

  lemma ReqIs(c: Client, req: seq<byte>, len: nat)
    requires 0 < len <= |c.inbox.rx| && req == c.inbox.rx[..len]
    requires len == (match NextRequest(c.inbox.rx) case None => 0 case Some(r) => |r|)
    ensures NextRequest(c.inbox.rx) == Some(req)
  {
    var r := NextRequest(c.inbox.rx).value;
    assert r == c.inbox.rx[..|r|];
  }

  /** A C string runs up to the first NUL. */
  lemma {:induction false} Unbroken(rx: seq<byte>, i: nat, j: nat)
    requires i <= |CString(rx)| && i <= j <= |rx| && forall k :: i <= k < j ==> rx[k] != 0
    ensures j <= |CString(rx)|
    decreases j - i
  {
    if i < j {
      Unbroken(rx, i + 1, j);
    }
  }

  /** `rtsp_server_t` */
  /** The effect of `rtsp_server_close`. */
  lemma ShutdownIs(s: Server, read: Reading)
    requires Shaped(s)
    ensures Step(s, Shutdown, read)
         == s.(clients := seq(MAX_CLIENTS, _ => FREE_SLOT), open := AfterClose(s.open, s.clients) - {s.listenFd})
  {
  }

  class RtspServer {
    const listenFd: int
    const clients: seq<ClientSlot>
    const videoTsBase: seq<u32>
    const metadataTsBase: u32
    const read: Reading
    const kernel: Kernel
    var enabled: seq<bool>
    var authEnabled: bool
    var sps: seq<seq<byte>>
    var pps: seq<seq<byte>>

    constructor (listenFd: int, slots: seq<ClientSlot>, kernel: Kernel, videoTsBase: seq<u32>, metadataTsBase: u32, read: Reading)
      requires SlotsApart(slots) && (forall i :: 0 <= i < |slots| ==> kernel !in slots[i].Repr())
      requires forall i :: 0 <= i < |slots| ==> slots[i].Valid() && slots[i].State() == FREE_SLOT
      requires listenFd >= 0 && kernel.open == {listenFd} && |videoTsBase| == STREAM_COUNT
      ensures Valid() && State() == Init(listenFd, videoTsBase, metadataTsBase)
      ensures this.kernel == kernel && this.clients == slots && this.read == read && fresh(this)
    {
      this.listenFd, this.clients, this.kernel := listenFd, slots, kernel;
      this.videoTsBase, this.metadataTsBase, this.read := videoTsBase, metadataTsBase, read;
      enabled, authEnabled, sps, pps := [false, false], false, [[], []], [[], []];
    }

    /** `rtsp_server_init` after its socket calls succeeded. */
    static method Start(listenFd: int, videoTsBase: seq<u32>, metadataTsBase: u32, read: Reading) returns (srv: RtspServer)
      requires listenFd >= 0 && |videoTsBase| == STREAM_COUNT
      ensures fresh(srv) && srv.Valid() && srv.State() == Init(listenFd, videoTsBase, metadataTsBase) && srv.read == read
    {
      var slots := NewSlots();
      var kernel := new Kernel();
      kernel.Opened(listenFd);
      srv := new RtspServer(listenFd, slots, kernel, videoTsBase, metadataTsBase, read);
    }

    static method NewSlots() returns (slots: seq<ClientSlot>)
      ensures SlotsApart(slots) && forall i :: 0 <= i < |slots| ==> slots[i].Valid() && slots[i].State() == FREE_SLOT
    {
      slots := [];
      while |slots| < MAX_CLIENTS
        invariant |slots| <= MAX_CLIENTS
        invariant forall i :: 0 <= i < |slots| ==> slots[i].Valid() && slots[i].State() == FREE_SLOT
        invariant forall i, j :: 0 <= i < j < |slots| ==> slots[i].Repr() !! slots[j].Repr()
      {
        hide ClientSlot.Valid, ClientSlot.State;
        var slot := new ClientSlot();
        assert forall i :: 0 <= i < |slots| ==> slots[i].Repr() !! slot.Repr();
        slots := slots + [slot];
      }
    }

    static ghost predicate SlotsApart(slots: seq<ClientSlot>) {
      |slots| == MAX_CLIENTS && forall i, j :: 0 <= i < j < |slots| ==> slots[i].Repr() !! slots[j].Repr()
    }

    ghost function Repr(): set<object>
      reads this
    {
      {this, kernel} + set i, o | 0 <= i < |clients| && o in clients[i].Repr() :: o
    }

    /** Slots share no structure. */
    ghost predicate Apart()
      reads this
    {
      && SlotsApart(clients)
      && (forall i :: 0 <= i < |clients| ==> this !in clients[i].Repr() && kernel !in clients[i].Repr())
    }

    ghost predicate Valid()
      reads this, Repr()
    {
      && Apart()
      && (forall i :: 0 <= i < |clients| ==> clients[i].Valid())
      && |enabled| == |sps| == |pps| == |videoTsBase| == STREAM_COUNT && listenFd >= 0
    }

    function SharedState(): Shared
      reads this
    {
      Shared(enabled, authEnabled, sps, pps, videoTsBase, metadataTsBase)
    }

    ghost function State(): (s: Server)
      reads this, Repr()
      requires Valid()
      ensures Shaped(s)
    {
      Server(listenFd, seq(MAX_CLIENTS, i requires 0 <= i < MAX_CLIENTS && Valid() reads this, Repr() => clients[i].State()),
             SharedState(), kernel.open)
    }

    /** `rtsp_server_enable_stream` */
    method EnableStream(stream: int)
      requires Valid()
      modifies this
      ensures Valid() && State() == Step(old(State()), Session.EnableStream(stream), read)
    {
      if stream < 0 || stream >= STREAM_COUNT {
        return;
      }
      enabled := enabled[stream := true];
    }

    /** `rtsp_server_set_credentials` and `rtsp_server_use_shadow`, as far as requests can tell. */
    method RequireAuth()
      requires Valid()
      modifies this
      ensures Valid() && State() == Step(old(State()), Session.RequireAuth, read)
    {
      authEnabled := true;
    }

    /** `rtsp_server_push_nal` */
    method PushNal(stream: int, nal: seq<byte>, pts: u64, last: bool)
      requires Valid()
      modifies Repr()
      ensures Valid() && State() == Session.PushNal(old(State()), stream, nal, pts, last)
    {
      if stream < 0 || stream >= STREAM_COUNT || nal == [] {
        return;
      }
      CacheParamSet(stream, nal);
      if NalType(nal) == NAL_SEI {
        return;
      }
      var ts := Ticks(pts, videoTsBase[stream]);
      PushToAll(stream, nal, ts, last);
    }

    /** `cache_param_set` */
    method CacheParamSet(stream: nat, nal: Nal)
      requires Valid() && stream < STREAM_COUNT
      modifies this
      ensures Valid() && State() == old(State()).(shared := Session.CacheParamSet(old(SharedState()), stream, nal))
    {
      var t := NalType(nal);
      if (t != NAL_SPS && t != NAL_PPS) || |nal| > PARAM_SET_CAP {
        return;
      }
      if t == NAL_SPS {
        sps := sps[stream := nal];
      } else {
        pps := pps[stream := nal];
      }
    }

    /** Slot `i` may have changed; the others and the shared fields have not. */
    twostate predicate OnlySlot(i: nat)
      reads this, Repr()
      requires old(Valid()) && Valid()
    {
      && SharedState() == old(SharedState())
      && forall j :: 0 <= j < MAX_CLIENTS && j != i ==> clients[j].State() == old(clients[j].State())
    }

    /** Changing one slot's structure leaves the other slots alone. */
    twostate lemma OthersKept(i: nat)
      requires old(Valid()) && i < MAX_CLIENTS && unchanged(this)
      requires forall j, o :: 0 <= j < MAX_CLIENTS && j != i && o in clients[j].Repr() ==> unchanged(o)
      requires clients[i].Valid()
      ensures Valid() && OnlySlot(i)
    {
      forall j | 0 <= j < MAX_CLIENTS && j != i
        ensures clients[j].Valid() && clients[j].State() == old(clients[j].State())
      {
        SlotKept(j);
      }
    }

    twostate lemma SlotKept(j: nat)
      requires old(Valid()) && j < MAX_CLIENTS && unchanged(this)
      requires forall o :: o in clients[j].Repr() ==> unchanged(o)
      ensures clients[j].Valid() && clients[j].State() == old(clients[j].State())
    {
      var c := clients[j];
      assert unchanged(c) && unchanged(c.video) && unchanged(c.metadata) && unchanged(c.rxbuf) && unchanged(c.conn);
    }

    /** The client loop of `rtsp_server_push_nal`. */
    method PushToAll(stream: nat, nal: Nal, ts: u32, last: bool)
      requires Valid()
      modifies Repr()
      ensures Valid() && SharedState() == old(SharedState()) && kernel.open == old(kernel.open)
      ensures forall i :: 0 <= i < MAX_CLIENTS ==> clients[i].State() == PushTo(old(clients[i].State()), stream, nal, ts, last)
    {
      var i := 0;
      while i < MAX_CLIENTS
        invariant 0 <= i <= MAX_CLIENTS && Valid()
        invariant SharedState() == old(SharedState()) && kernel.open == old(kernel.open)
        invariant forall j :: 0 <= j < i ==> clients[j].State() == PushTo(old(clients[j].State()), stream, nal, ts, last)
        invariant forall j :: i <= j < MAX_CLIENTS ==> clients[j].State() == old(clients[j].State())
      {
        PushToSlot(i, stream, nal, ts, last);
        i := i + 1;
      }
    }

    method PushToSlot(i: nat, stream: nat, nal: Nal, ts: u32, last: bool)
      requires Valid() && i < MAX_CLIENTS
      modifies clients[i].Repr()
      ensures Valid() && OnlySlot(i) && kernel.open == old(kernel.open)
      ensures clients[i].State() == PushTo(old(clients[i].State()), stream, nal, ts, last)
    {
      clients[i].Push(stream, nal, ts, last);
      OthersKept(i);
    }

    // ----- polling -----

    /** One turn of the client loop in `rtsp_server_poll`. */
    method PollSlot(i: nat, now: nat, input: P.ClientInput)
      requires Valid() && i < MAX_CLIENTS
      requires P.FairClient(SharedState(), clients[i].State(), kernel.open, input, read)
      modifies clients[i].Repr(), kernel
      ensures Valid() && OnlySlot(i)
      ensures (clients[i].State(), kernel.open)
           == P.PollClient(SharedState(), old(clients[i].State()), old(kernel.open), now, input, read)
    {
      clients[i].Poll(SharedState(), kernel, now, input, read);
      OthersKept(i);
    }

    /** One changed slot is one `Put`. */
    twostate lemma OneSlotIsPut(i: nat)
      requires old(Valid()) && Valid() && i < MAX_CLIENTS && OnlySlot(i)
      ensures State() == Put(old(State()), i, clients[i].State()).(open := kernel.open)
    {
      assert State().clients == old(State()).clients[i := clients[i].State()];
    }

    /** The client loop of `rtsp_server_poll`. */
    method PollSlots(input: P.PollInput)
      requires Valid() && P.FairFrom(State(), 0, input, read)
      modifies Repr()
      ensures Valid() && State() == P.PollFrom(old(State()), 0, input, read)
    {
      ghost var goal := P.PollFrom(State(), 0, input, read);
      var i := 0;
      while i < MAX_CLIENTS
        invariant 0 <= i <= MAX_CLIENTS && Valid()
        invariant P.FairFrom(State(), i, input, read) && P.PollFrom(State(), i, input, read) == goal
      {
        PollNext(i, input);
        i := i + 1;
      }
    }

    method PollNext(i: nat, input: P.PollInput)
      requires Valid() && i < MAX_CLIENTS && P.FairFrom(State(), i, input, read)
      modifies Repr()
      ensures Valid() && P.FairFrom(State(), i + 1, input, read)
      ensures P.PollFrom(State(), i + 1, input, read) == P.PollFrom(old(State()), i, input, read)
    {
      hide P.PollClient, P.FairClient;
      PollSlot(i, input.now, input.client(i));
      OneSlotIsPut(i);
    }

    /** The search for a free slot in `rtsp_server_poll`. */
    method FindFree() returns (slot: Option<nat>)
      requires Valid()
      ensures slot == FreeSlot(State().clients) && State() == old(State())
    {
      ghost var cs := State().clients;
      var i := 0;
      while i < MAX_CLIENTS
        invariant 0 <= i <= MAX_CLIENTS
        invariant FreeSlot(cs) == FreeSlot(cs, i)
      {
        assert cs[i].tcpFd == clients[i].tcpFd;
        if clients[i].tcpFd < 0 { return Some(i); }
        i := i + 1;
      }
      return None;
    }

    /** The `accept` part of `rtsp_server_poll`. */
    method Admit(fd: int, loopback: bool)
      requires Valid() && fd >= 0 && fd !in kernel.open
      modifies Repr()
      ensures Valid() && State() == AcceptInto(old(State()), fd, loopback)
    {
      var slot := FindFree();
      if slot.None? {
        Refuse(fd);
      } else {
        Occupy(slot.value, fd, loopback);
      }
    }

    /** No free slot: the connection is closed again. */
    method Refuse(fd: int)
      requires Valid() && fd >= 0 && fd !in kernel.open
      modifies kernel
      ensures Valid() && State() == old(State())
    {
      kernel.Opened(fd);
      kernel.Close(fd);
      assert kernel.open == old(kernel.open);
      forall j | 0 <= j < MAX_CLIENTS ensures clients[j].Valid() && clients[j].State() == old(clients[j].State()) {
        SlotKept(j);
      }
      assert State().clients == old(State().clients);
    }

    method Occupy(i: nat, fd: int, loopback: bool)
      requires Valid() && i < MAX_CLIENTS && fd >= 0
      modifies clients[i].Repr(), kernel
      ensures Valid()
      ensures State() == Put(old(State()), i, FREE_SLOT.(tcpFd := fd, loopback := loopback))
                         .(open := old(kernel.open) + {fd} - ClientFds(old(State()).clients[i]))
    {
      kernel.Opened(fd);
      clients[i].Adopt(kernel, fd, loopback);
      OthersKept(i);
      hide ClientSlot.Valid, ClientSlot.State;
      OneSlotIsPut(i);
    }

    /** `rtsp_server_poll` */
    method Poll(input: P.PollInput)
      requires Valid() && P.Fair(State(), input, read)
      modifies Repr()
      ensures Valid() && State() == P.PollServer(old(State()), input, read)
    {
      if input.connection.Some? {
        Admit(input.connection.value.0, input.connection.value.1);
      }
      PollSlots(input);
    }

    // ----- closing -----

    /** `rtsp_server_close` */
    method Close()
      requires Valid()
      modifies Repr()
      ensures Valid() && State() == Step(old(State()), Shutdown, read)
    {
      hide Step, AfterClose;
      ShutdownIs(State(), read);
      ResetAll();
      CloseListener();
    }

    method CloseListener()
      requires Valid()
      modifies kernel
      ensures Valid() && State() == old(State()).(open := old(kernel.open) - {listenFd})
    {
      kernel.Close(listenFd);
      forall i | 0 <= i < MAX_CLIENTS ensures clients[i].Valid() && clients[i].State() == old(clients[i].State()) {
        SlotKept(i);
      }
      assert State().clients == old(State().clients);
    }

    /** The client loop of `rtsp_server_close`. */
    method ResetAll()
      requires Valid()
      modifies Repr()
      ensures Valid() && State() == old(State()).(clients := seq(MAX_CLIENTS, _ => FREE_SLOT),
                                                  open := AfterClose(old(kernel.open), old(State()).clients))
    {
      ghost var s, t := State(), State();
      hide AfterClose, State, ClientFds, TrackFds;
      var i := 0;
      while i < MAX_CLIENTS
        invariant 0 <= i <= MAX_CLIENTS && Valid() && t == State()
        invariant t == s.(clients := t.clients, open := t.open)
        invariant FreeUpTo(t, i) && AfterClose(t.open, t.clients[i..]) == AfterClose(s.open, s.clients)
      {
        ResetSlot(i);
        ResetStep(t, i);
        t := Put(t, i, FREE_SLOT).(open := t.open - ClientFds(t.clients[i]));
        i := i + 1;
      }
      AllFree(t);
    }

    method ResetSlot(i: nat)
      requires Valid() && i < MAX_CLIENTS
      modifies clients[i].Repr(), kernel
      ensures Valid()
      ensures State() == Put(old(State()), i, FREE_SLOT).(open := old(State()).open - ClientFds(old(State()).clients[i]))
    {
      clients[i].Reset(kernel);
      OthersKept(i);
      hide ClientSlot.Valid, ClientSlot.State;
      OneSlotIsPut(i);
    }
  }
}

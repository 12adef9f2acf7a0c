/** What every reachable state of the server keeps: sessions, descriptor ownership, the receive
    buffer, and one reply for each request consumed. */
module Invariants {
  import opened Bytes
  import opened Rtp
  import opened Framing
  import opened Session

  // ----- sessions -----

  /** An active track has somewhere to send: interleaved, or both sockets. */
  predicate Sends(t: Track) {
    t.active && !t.interleaved ==> t.rtpFd >= 0 && t.rtcpFd >= 0
  }

  ghost predicate SessionOk(sh: Shared, c: Client) {
    && (c.waitingForSps ==> c.playing)
    && (c.playing ==> c.hasSession)
    && (c.video.active || c.metadata.active ==> c.hasSession)
    && Sends(c.video) && Sends(c.metadata)
    && (c.hasSession ==> StreamEnabled(sh, c.streamId))
    && (c.tcpFd < 0 ==> c == FREE_SLOT)
    && |c.inbox.rx| <= RX_LIMIT
  }

  // ----- descriptors -----

  /** The descriptors of one slot are -1 or distinct. */
  predicate Separate(c: Client) {
    && c.tcpFd >= -1
    && TrackSeparate(c.video) && TrackSeparate(c.metadata)
    && c.tcpFd !in TrackFds(c.video) + TrackFds(c.metadata)
    && TrackFds(c.video) !! TrackFds(c.metadata)
  }

  predicate TrackSeparate(t: Track) {
    t.rtpFd >= -1 && t.rtcpFd >= -1 && (t.rtpFd == t.rtcpFd ==> t.rtpFd == -1)
  }

  predicate Owns(clients: seq<Client>, i: nat, fd: int) {
    i < |clients| && fd in ClientFds(clients[i])
  }

  /** Apart from the listener, the open descriptors are those of the slots, and slots share none. */
  ghost predicate Ownership(s: Server) {
    && s.listenFd >= 0
    && (forall i :: 0 <= i < |s.clients| ==> Separate(s.clients[i]))
    && (forall i :: !Owns(s.clients, i, s.listenFd))
    && (forall i, j, fd :: Owns(s.clients, i, fd) && Owns(s.clients, j, fd) ==> i == j)
    && (forall fd :: fd in s.open && fd != s.listenFd ==> exists i :: Owns(s.clients, i, fd))
    && (forall i, fd :: Owns(s.clients, i, fd) ==> fd in s.open)
  }

  ghost predicate Inv(s: Server) {
    Shaped(s) && Ownership(s) && forall i :: 0 <= i < MAX_CLIENTS ==> SessionOk(s.shared, s.clients[i])
  }

  /** How a slot's descriptors may change: those it drops are closed, those it gains were unused. */
  predicate Exchanged(c: Client, open: set<int>, c': Client, open': set<int>) {
    && Separate(c')
    && open' == open - ClientFds(c) + ClientFds(c')
    && ClientFds(c') * open <= ClientFds(c)
  }

  lemma ExchangeKeepsOwnership(s: Server, i: nat, c': Client, open': set<int>)
    requires Shaped(s) && Ownership(s) && i < MAX_CLIENTS && s.listenFd in s.open
    requires Exchanged(s.clients[i], s.open, c', open')
    ensures Ownership(Put(s, i, c').(open := open'))
  {
    var s' := Put(s, i, c').(open := open');
    assert forall j, fd :: j != i ==> (Owns(s'.clients, j, fd) <==> Owns(s.clients, j, fd));
    assert forall fd :: Owns(s'.clients, i, fd) <==> fd in ClientFds(c');
    assert forall fd :: Owns(s.clients, i, fd) <==> fd in ClientFds(s.clients[i]);
    forall fd | fd in s'.open && fd != s'.listenFd ensures exists j :: Owns(s'.clients, j, fd) {
      if fd in ClientFds(c') {
        assert Owns(s'.clients, i, fd);
      } else {
        var j :| Owns(s.clients, j, fd);
        assert j != i && Owns(s'.clients, j, fd);
      }
    }
  }

  lemma {:induction false} BindGivesFreshPair(open: set<int>, attempts: seq<Attempt>)
    requires forall a :: a in attempts ==> FreshAttempt(open, a)
    ensures var (port, pair) := BindUdpPair(attempts);
            && port >= -1
            && (port >= 0 ==> pair.Some?)
            && (pair.Some? ==> pair.value.0 >= 0 && pair.value.1 >= 0 && pair.value.0 != pair.value.1
                               && pair.value.0 !in open && pair.value.1 !in open)
  {
    if attempts != [] {
      assert attempts[0] in attempts;
      BindGivesFreshPair(open, attempts[1..]);
    }
  }

  lemma TrackExchanges(c: Client, open: set<int>, t: TrackId, x: Track)
    requires Separate(c) && ClientFds(c) <= open
    requires TrackSeparate(x) && TrackFds(x) !! (open - TrackFds(c.GetTrack(t)))
    ensures Exchanged(c, open, c.PutTrack(t, x), open - TrackFds(c.GetTrack(t)) + TrackFds(x))
  {
  }

  /** Only descriptors matter to an exchange. */
  lemma ExchangeUpTo(c: Client, open: set<int>, c1: Client, open1: set<int>, c': Client)
    requires Exchanged(c, open, c1, open1)
    requires c'.tcpFd == c1.tcpFd
    requires c'.video.rtpFd == c1.video.rtpFd && c'.video.rtcpFd == c1.video.rtcpFd
    requires c'.metadata.rtpFd == c1.metadata.rtpFd && c'.metadata.rtcpFd == c1.metadata.rtcpFd
    ensures Exchanged(c, open, c', open1)
  {
  }

  lemma PreparedTrack(transport: Transport, attempts: seq<Attempt>, open: set<int>)
    requires forall a :: a in attempts ==> FreshAttempt(open, a)
    ensures var p := Prepare(transport, attempts);
            !p.Unusable? ==> TrackSeparate(p.x) && TrackFds(p.x) !! open && !p.x.active
  {
    BindGivesFreshPair(open, attempts);
  }

  lemma SetupExchanges(sh: Shared, c: Client, open: set<int>, r: Request, ch: Choice)
    requires Separate(c) && ClientFds(c) <= open
    requires forall a :: a in ch.attempts ==> FreshAttempt(open - TrackFds(c.GetTrack(SetupTrack(r))), a)
    ensures var (c', open') := HandleSetup(sh, c, open, r, ch);
            Exchanged(c, open, c', open')
  {
    var t, p := SetupTrack(r), Prepare(r.transport, ch.attempts);
    var (c', open') := HandleSetup(sh, c, open, r, ch);
    PreparedTrack(r.transport, ch.attempts, open - TrackFds(c.GetTrack(t)));
    hide Prepare;
    if StreamEnabled(sh, r.stream) && !p.Unusable? {
      TrackExchanges(c, open, t, p.x);
      hide Exchanged;
      ExchangeUpTo(c, open, c.PutTrack(t, p.x), open', c');
    } else {
      ExchangeUpTo(c, open, c, open, c');
    }
  }

  lemma {:induction false} BindGivesPair(attempts: seq<Attempt>)
    ensures var (port, pair) := BindUdpPair(attempts);
            (port >= 0 ==> pair.Some?) && (pair.Some? ==> pair.value.0 >= 0 && pair.value.1 >= 0)
  {
    if attempts != [] {
      BindGivesPair(attempts[1..]);
    }
  }

  lemma PreparedSends(transport: Transport, attempts: seq<Attempt>)
    ensures var p := Prepare(transport, attempts);
            !p.Unusable? ==> !p.x.active && (p.Ready? ==> p.x.interleaved || (p.x.rtpFd >= 0 && p.x.rtcpFd >= 0))
  {
    BindGivesPair(attempts);
    hide BindUdpPair;
  }

  lemma SetupSession(sh: Shared, c: Client, open: set<int>, r: Request, ch: Choice)
    requires SessionOk(sh, c) && c.tcpFd >= 0
    ensures SessionOk(sh, HandleSetup(sh, c, open, r, ch).0)
  {
    PreparedSends(r.transport, ch.attempts);
    hide Prepare;
  }

  lemma TeardownExchanges(c: Client, open: set<int>, r: Request)
    requires Separate(c) && ClientFds(c) <= open
    ensures var (c', open') := HandleTeardown(c, open, r); Exchanged(c, open, c', open')
  {
  }

  lemma RequestExchanges(sh: Shared, c: Client, open: set<int>, r: Request, ch: Choice)
    requires Separate(c) && ClientFds(c) <= open
    requires forall a :: a in ch.attempts ==> FreshAttempt(open - TrackFds(c.GetTrack(SetupTrack(r))), a)
    ensures var h := HandleRequest(sh, c, open, r, ch);
            h.Some? ==> Exchanged(c, open, h.value.0, h.value.1)
  {
    assert Exchanged(c, open, c, open);
    if Authorised(sh, c, ch) && r.verb == Setup {
      SetupExchanges(sh, c, open, r, ch);
    } else if Authorised(sh, c, ch) && r.verb == Teardown {
      TeardownExchanges(c, open, r);
    } else if Authorised(sh, c, ch) && r.verb == Play {
      ExchangeUpTo(c, open, c, open, HandlePlay(c, r, ch));
    } else {
      var m := QuietReply(sh, c, open, r, ch);
      ExchangeUpTo(c, open, c, open, c.Send(m));
    }
  }

  predicate SameBuffer(c: Client, c': Client) {
    && c'.tcpFd == c.tcpFd && c'.loopback == c.loopback && c'.inbox == c.inbox
  }

  /** Handling a request leaves the buffer to `drain_requests`. */
  lemma RequestKeepsBuffer(sh: Shared, c: Client, open: set<int>, r: Request, ch: Choice)
    ensures var h := HandleRequest(sh, c, open, r, ch); h.Some? ==> SameBuffer(c, h.value.0)
  {
    if Authorised(sh, c, ch) && r.verb == Setup {
      var m := SetupShape(sh, c, open, r, ch);
      hide HandleSetup;
    } else if Authorised(sh, c, ch) && (r.verb == Teardown || r.verb == Play) {
    } else {
      var m := QuietReply(sh, c, open, r, ch);
    }
  }

  lemma RequestSession(sh: Shared, c: Client, open: set<int>, r: Request, ch: Choice)
    requires SessionOk(sh, c) && c.tcpFd >= 0
    ensures var h := HandleRequest(sh, c, open, r, ch);
            h.Some? ==> SessionOk(sh, h.value.0) && h.value.0.tcpFd == c.tcpFd && h.value.0.inbox.rx == c.inbox.rx
  {
    RequestKeepsBuffer(sh, c, open, r, ch);
    hide HandleSetup;
    if Authorised(sh, c, ch) && r.verb == Setup {
      SetupSession(sh, c, open, r, ch);
    } else if Authorised(sh, c, ch) && (r.verb == Teardown || r.verb == Play) {
    } else {
      var m := QuietReply(sh, c, open, r, ch);
    }
  }

  /** Every event on a slot keeps that slot's session state and exchanges descriptors properly. */
  lemma SlotStep(s: Server, e: Event, i: nat, read: Reading)
    requires Shaped(s) && i < MAX_CLIENTS && Separate(s.clients[i]) && ClientFds(s.clients[i]) <= s.open && SessionOk(s.shared, s.clients[i])
    requires Slot(e) == Some(i) && Guarded(s, e) && Honest(s, e, read)
    ensures var (c', open') := StepClient(s, i, e, read);
            Exchanged(s.clients[i], s.open, c', open') && SessionOk(s.shared, c')
  {
    var c := s.clients[i];
    assert Exchanged(c, s.open, c, s.open);
    match e
    case Hangup(_) =>
    case Recv(_, data) => ExchangeUpTo(c, s.open, c, s.open, Append(c, data));
    case Discard(_) => ExchangeUpTo(c, s.open, c, s.open, Overflow(c));
    case SendMetadata(_, _, clock, xml) =>
      ExchangeUpTo(c, s.open, c, s.open, MetadataPacket(s.shared, c, clock, xml));
    case Handle(_, ch) => HandleStep(s, i, ch, read);
  }

  lemma HandleStep(s: Server, i: nat, ch: Choice, read: Reading)
    requires Shaped(s) && i < MAX_CLIENTS && Separate(s.clients[i]) && ClientFds(s.clients[i]) <= s.open && SessionOk(s.shared, s.clients[i])
    requires Guarded(s, Handle(i, ch)) && Honest(s, Handle(i, ch), read)
    ensures var (c', open') := Consume(s.shared, s.clients[i], s.open, read, ch);
            Exchanged(s.clients[i], s.open, c', open') && SessionOk(s.shared, c')
  {
    var c, req := s.clients[i], NextRequest(s.clients[i].inbox.rx).value;
    RequestExchanges(s.shared, c, s.open, read(req), ch);
    RequestSession(s.shared, c, s.open, read(req), ch);
    var h := HandleRequest(s.shared, c, s.open, read(req), ch);
    hide HandleRequest;
    if h.Some? {
      var (c1, open1) := h.value;
      ExchangeUpTo(c, s.open, c1, open1, c1.(inbox := Take(c.inbox, req)));
    } else {
      assert Exchanged(c, s.open, c, s.open);
    }
  }

  lemma {:induction false} RtpSendAllKeeps(c: Client, fs: seq<Fragment>, ts: u32)
    ensures var c' := RtpSendAll(c, fs, ts);
            c' == c.(log := c'.log, video := c.video.(seqno := c'.video.seqno))
    decreases |fs|
  {
    if fs != [] {
      RtpSendAllKeeps(RtpSend(c, Video, PT_H264, fs[0].marker, ts, fs[0].payload), fs[1..], ts);
    }
  }

  /** A push changes at most the gate, the video sequence number and the log of a slot. */
  lemma PushKeeps(c: Client, stream: nat, nal: Nal, ts: u32, last: bool)
    ensures var c' := PushTo(c, stream, nal, ts, last);
            && c' == c.(log := c'.log, video := c.video.(seqno := c'.video.seqno), waitingForSps := c'.waitingForSps)
            && (c'.waitingForSps ==> c.waitingForSps)
            && (c.tcpFd < 0 ==> c' == c)
  {
    RtpSendAllKeeps(c.(waitingForSps := false), Packetize(nal, last), ts);
  }

  lemma SameDescriptors(s: Server, s': Server)
    requires Shaped(s) && Shaped(s') && Ownership(s) && s'.open == s.open && s'.listenFd == s.listenFd
    requires forall i :: 0 <= i < MAX_CLIENTS ==>
      && s'.clients[i].tcpFd == s.clients[i].tcpFd
      && s'.clients[i].video == s.clients[i].video.(seqno := s'.clients[i].video.seqno)
      && s'.clients[i].metadata == s.clients[i].metadata
    ensures Ownership(s')
  {
    assert forall i, fd :: Owns(s'.clients, i, fd) <==> Owns(s.clients, i, fd);
  }

  lemma PushInv(s: Server, stream: int, nal: seq<byte>, pts: u64, last: bool)
    requires Inv(s)
    ensures Inv(PushNal(s, stream, nal, pts, last))
  {
    if 0 <= stream < STREAM_COUNT && nal != [] && NalType(nal) != NAL_SEI {
      var ts := Ticks(pts, s.shared.videoTsBase[stream]);
      forall i | 0 <= i < MAX_CLIENTS
        ensures var c, c' := s.clients[i], PushTo(s.clients[i], stream, nal, ts, last);
                && c' == c.(log := c'.log, video := c.video.(seqno := c'.video.seqno), waitingForSps := c'.waitingForSps)
                && SessionOk(s.shared, c')
      {
        PushKeeps(s.clients[i], stream, nal, ts, last);
      }
    }
    SameDescriptors(s, PushNal(s, stream, nal, pts, last));
  }

  lemma AcceptInv(s: Server, fd: int, loopback: bool)
    requires Inv(s) && s.listenFd in s.open && fd >= 0 && fd !in s.open
    ensures Inv(AcceptInto(s, fd, loopback))
  {
    var f := FreeSlot(s.clients);
    if f.Some? {
      var c := FREE_SLOT.(tcpFd := fd, loopback := loopback);
      assert s.clients[f.value] == FREE_SLOT;
      assert s.open + {fd} - ClientFds(FREE_SLOT) == s.open - ClientFds(FREE_SLOT) + ClientFds(c);
      ExchangeKeepsOwnership(s, f.value, c, s.open + {fd} - ClientFds(FREE_SLOT));
    }
  }

  lemma {:induction false} AfterCloseIs(open: set<int>, clients: seq<Client>, fd: int)
    ensures fd in AfterClose(open, clients) <==> fd in open && forall i :: !Owns(clients, i, fd)
    decreases |clients|
  {
    if clients != [] {
      var rest := clients[1..];
      AfterCloseIs(open - ClientFds(clients[0]), rest, fd);
      assert Owns(clients, 0, fd) <==> fd in ClientFds(clients[0]);
      assert forall i: nat :: Owns(rest, i, fd) <==> Owns(clients, i + 1, fd);
      assert forall i: nat :: i > 0 ==> (Owns(clients, i, fd) <==> Owns(rest, i - 1, fd));
    }
  }

  /** After `rtsp_server_close` no descriptor of the server is open. */
  lemma ShutdownClosesAll(s: Server, read: Reading)
    requires Inv(s)
    ensures Step(s, Shutdown, read).open == {}
  {
    var s' := Step(s, Shutdown, read);
    forall fd ensures fd !in s'.open {
      AfterCloseIs(s.open, s.clients, fd);
    }
  }

  lemma StepInv(s: Server, e: Event, read: Reading)
    requires Inv(s) && Guarded(s, e) && Honest(s, e, read)
    ensures Inv(Step(s, e, read))
  {
    match e
    case EnableStream(_) => SameDescriptors(s, Step(s, e, read));
    case RequireAuth => SameDescriptors(s, Step(s, e, read));
    case Accept(fd, loopback) => AcceptInv(s, fd, loopback);
    case Push(stream, nal, pts, last) => PushInv(s, stream, nal, pts, last);
    case Shutdown =>
      ShutdownClosesAll(s, read);
      assert forall i, fd :: !Owns(Step(s, e, read).clients, i, fd);
    case _ => SlotStepInv(s, e, read);
  }

  lemma SlotStepInv(s: Server, e: Event, read: Reading)
    requires Inv(s) && Guarded(s, e) && Honest(s, e, read) && Slot(e).Some?
    ensures Inv(Step(s, e, read))
  {
    var i := Slot(e).value;
    assert forall fd :: Owns(s.clients, i, fd) <==> fd in ClientFds(s.clients[i]);
    SlotStep(s, e, i, read);
    var (c', open') := StepClient(s, i, e, read);
    ExchangeKeepsOwnership(s, i, c', open');
    assert Step(s, e, read) == Put(s, i, c').(open := open');
    hide StepClient, Ownership, Exchanged, SessionOk;
  }

  lemma {:induction false} RunInv(s: Server, es: seq<Event>, read: Reading)
    requires Inv(s) && Legal(s, es, read)
    ensures Inv(Run(s, es, read))
    decreases |es|
  {
    if es != [] {
      StepInv(s, es[0], read);
      RunInv(Step(s, es[0], read), es[1..], read);
    }
  }

  /** In every reachable state the session flags are consistent and descriptors are owned. */
  lemma Reachable(listenFd: int, videoTsBase: seq<u32>, metadataTsBase: u32, es: seq<Event>, read: Reading)
    requires listenFd >= 0 && |videoTsBase| == STREAM_COUNT
    requires Legal(Init(listenFd, videoTsBase, metadataTsBase), es, read)
    ensures Inv(Run(Init(listenFd, videoTsBase, metadataTsBase), es, read))
  {
    var s := Init(listenFd, videoTsBase, metadataTsBase);
    assert forall i, fd :: !Owns(s.clients, i, fd);
    RunInv(s, es, read);
  }

  // ----- who owns a descriptor -----

  datatype Owner = Listener | Connection(i: nat) | RtpSocket(i: nat, t: TrackId) | RtcpSocket(i: nat, t: TrackId)

  function Held(s: Server, o: Owner): int {
    match o
    case Listener => s.listenFd
    case Connection(i) => if i < |s.clients| then s.clients[i].tcpFd else -1
    case RtpSocket(i, t) => if i < |s.clients| then s.clients[i].GetTrack(t).rtpFd else -1
    case RtcpSocket(i, t) => if i < |s.clients| then s.clients[i].GetTrack(t).rtcpFd else -1
  }

  /** While the server listens, every open descriptor has exactly one owner and owners hold only open ones. */
  lemma ExactlyOneOwner(s: Server, fd: int)
    requires Inv(s) && s.listenFd in s.open && fd >= 0
    ensures fd in s.open <==> exists o :: Held(s, o) == fd
    ensures forall o, o' :: Held(s, o) == fd && Held(s, o') == fd ==> o == o'
  {
    forall o | Held(s, o) == fd ensures fd == s.listenFd || exists i :: Owns(s.clients, i, fd) {
      if o != Listener {
        assert Owns(s.clients, o.i, fd);
      }
    }
    if fd in s.open && fd != s.listenFd {
      var i :| Owns(s.clients, i, fd);
      var o := SlotOwner(s, i, fd);
    } else if fd in s.open {
      assert Held(s, Listener) == fd;
    }
    forall o, o' | Held(s, o) == fd && Held(s, o') == fd ensures o == o' {
      assert !o.Listener? ==> Owns(s.clients, o.i, fd);
      assert !o'.Listener? ==> Owns(s.clients, o'.i, fd);
      if !o.Listener? && !o'.Listener? {
        assert o.i == o'.i;
        assert Separate(s.clients[o.i]);
      }
    }
  }

  lemma SlotOwner(s: Server, i: nat, fd: int) returns (o: Owner)
    requires Owns(s.clients, i, fd) && fd >= 0
    ensures Held(s, o) == fd
  {
    var c := s.clients[i];
    o := if fd == c.tcpFd then Connection(i)
         else if fd == c.video.rtpFd then RtpSocket(i, Video)
         else if fd == c.video.rtcpFd then RtcpSocket(i, Video)
         else if fd == c.metadata.rtpFd then RtpSocket(i, Metadata)
         else RtcpSocket(i, Metadata);
  }
}

/** What the replies tell a client, against what the server does. */
module Answers {
  import opened Bytes
  import opened Rtp
  import opened Session
  import R = Requests

  // ----- status codes -----

  /** The last message sent is a reply with this code. */
  predicate Ends(c: Client, code: nat) {
    c.log != [] && c.log[|c.log| - 1].Reply? && c.log[|c.log| - 1].code == code
  }

  /** What is wrong with a SETUP. */
  lemma SetupCode(sh: Shared, c: Client, open: set<int>, r: Request, ch: Choice) returns (code: nat)
    ensures Ends(HandleSetup(sh, c, open, r, ch).0, code) && code in {200, 400, 404, 500}
    ensures code == 404 <==> !StreamEnabled(sh, r.stream)
    ensures code == 400 <==> StreamEnabled(sh, r.stream) && (r.transport.TcpNoChannels? || r.transport.UdpNoPorts?)
    ensures code == 500 <==> StreamEnabled(sh, r.stream) && r.transport.Udp? && !Bindable(ch.attempts)
  {
    BindFails(ch.attempts);
    hide BindUdpPair, Bindable, StreamEnabled;
    var p := Prepare(r.transport, ch.attempts);
    code := if !StreamEnabled(sh, r.stream) then 404 else if p.Unusable? then 400 else if p.NoPorts? then 500 else 200;
  }

  /** What is wrong with a request for a session. */
  lemma SessionCode(c: Client, open: set<int>, r: Request, ch: Choice) returns (code: nat)
    ensures r.verb == Play ==> Ends(HandlePlay(c, r, ch), code)
    ensures r.verb == Teardown ==> Ends(HandleTeardown(c, open, r).0, code)
    ensures code in {200, 400, 454}
    ensures code == 400 <==> r.session.None?
    ensures code == 454 <==> r.session.Some? && !(c.hasSession && r.session.value == c.sessionId)
  {
    hide HandleTeardown;
    match SessionError(c, r)
    case Some(e) =>
      code := e;
      RefusedTeardown(c, open, r);
    case None =>
      code := 200;
      R.TeardownLog(c, open, r);
  }

  lemma RefusedTeardown(c: Client, open: set<int>, r: Request)
    requires SessionError(c, r).Some?
    ensures HandleTeardown(c, open, r).0 == c.Send(Reply(SessionError(c, r).value, r.cseq, NoDetail))
  {
  }

  lemma OtherCode(sh: Shared, c: Client, open: set<int>, r: Request, ch: Choice) returns (code: nat)
    requires Authorised(sh, c, ch) && r.verb !in {Setup, Play, Teardown} && !Deferred(sh, r)
    ensures var h := HandleRequest(sh, c, open, r, ch); h.Some? && Ends(h.value.0, code)
    ensures code in {200, 404, 405}
    ensures code == 405 <==> r.verb == Unknown
    ensures code == 404 <==> r.verb == Describe && !StreamEnabled(sh, r.stream)
  {
    hide StreamEnabled, HandleSetup, HandlePlay, HandleTeardown;
    code := if r.verb == Unknown then 405 else if r.verb == Describe && !StreamEnabled(sh, r.stream) then 404 else 200;
  }

  /** The code of the reply to a consumed request: every error has exactly one cause. */
  lemma ReplyCodeExactly(sh: Shared, c: Client, open: set<int>, r: Request, ch: Choice) returns (code: nat)
    requires !(Authorised(sh, c, ch) && Deferred(sh, r))
    ensures var h := HandleRequest(sh, c, open, r, ch); h.Some? && Ends(h.value.0, code)
    ensures code in {200, 400, 401, 404, 405, 454, 500}
    ensures code == 401 <==> !Authorised(sh, c, ch)
    ensures code == 405 <==> Authorised(sh, c, ch) && r.verb == Unknown
    ensures code == 404 <==> Authorised(sh, c, ch) && r.verb in {Describe, Setup} && !StreamEnabled(sh, r.stream)
    ensures code == 454 <==> Authorised(sh, c, ch) && r.verb in {Play, Teardown}
                             && r.session.Some? && !(c.hasSession && r.session.value == c.sessionId)
    ensures code == 500 <==> Authorised(sh, c, ch) && r.verb == Setup && StreamEnabled(sh, r.stream)
                             && r.transport.Udp? && !Bindable(ch.attempts)
    ensures code == 400 <==> Authorised(sh, c, ch)
                             && ((r.verb in {Play, Teardown} && r.session.None?)
                                 || (r.verb == Setup && StreamEnabled(sh, r.stream)
                                     && (r.transport.TcpNoChannels? || r.transport.UdpNoPorts?)))
  {
    hide Bindable, StreamEnabled, HandleSetup, HandlePlay, HandleTeardown, Cached;
    if !Authorised(sh, c, ch) {
      code := 401;
    } else if r.verb == Setup {
      code := SetupCode(sh, c, open, r, ch);
    } else if r.verb in {Play, Teardown} {
      code := SessionCode(c, open, r, ch);
    } else {
      code := OtherCode(sh, c, open, r, ch);
    }
  }

  // ----- what SETUP announces -----

  /** The pair of sockets an attempt bound, the second one port above the first. */
  predicate Bound(a: Attempt, port: int, rtp: int, rtcp: int) {
    a.rtp == rtp >= 0 && a.rtcp == rtcp >= 0 && a.port == Some(port as int) && a.second && port < 0xffff
  }

  lemma {:induction false} BoundPair(attempts: seq<Attempt>)
    requires BindUdpPair(attempts).0 >= 0
    ensures var (port, pair) := BindUdpPair(attempts);
            pair.Some? && exists a :: a in attempts && Bound(a, port, pair.value.0, pair.value.1)
    decreases |attempts|
  {
    var a := attempts[0];
    if a.rtp >= 0 && a.rtcp >= 0 && a.port.Some? && a.second {
      assert Bound(a, BindUdpPair(attempts).0, a.rtp, a.rtcp);
    } else {
      BoundPair(attempts[1..]);
      var (port, pair) := BindUdpPair(attempts[1..]);
      var b :| b in attempts[1..] && Bound(b, port, pair.value.0, pair.value.1);
      assert b in attempts;
    }
  }

  /** RTP and RTCP of `x` go over the two channels, or from two sockets bound to `port` and the next to the two
      ports of the client, that these numbers truncate to: channels are octets and ports are 16-bit words. */
  predicate Reaches(x: Track, tcp: bool, a: u32, b: u32, port: int, attempts: seq<Attempt>) {
    if tcp then ViaOf(x, false) == OnTcp(a % 0x100) && ViaOf(x, true) == OnTcp(b % 0x100)
    else
      && ViaOf(x, false) == OnUdp(x.rtpFd, a % 0x1_0000) && ViaOf(x, true) == OnUdp(x.rtcpFd, b % 0x1_0000)
      && exists t :: t in attempts && Bound(t, port, x.rtpFd, x.rtcpFd)
  }

  /** The numbers asked for, the second defaulting to the one after the first. */
  predicate Asked(transport: Transport, tcp: bool, a: u32, b: u32) {
    match transport
    case Tcp(x, y) => tcp && a == x && (match y case Some(v) => b == v case None => b as int == (x as int + 1) % 0x1_0000_0000)
    case Udp(x, y) => !tcp && a == x && (match y case Some(v) => b == v case None => b as int == (x as int + 1) % 0x1_0000_0000)
    case _ => false
  }

  lemma PrepareReaches(transport: Transport, attempts: seq<Attempt>)
    requires Prepare(transport, attempts).Ready?
    ensures var p := Prepare(transport, attempts);
            Asked(transport, p.tcp, p.a, p.b) && Reaches(p.x, p.tcp, p.a, p.b, p.port, attempts)
  {
    if transport.Udp? {
      BoundPair(attempts);
    }
    hide BindUdpPair, Bound;
  }

  lemma EstablishedBy(sh: Shared, c: Client, open: set<int>, r: Request, ch: Choice)
    requires Ends(HandleSetup(sh, c, open, r, ch).0, 200)
    ensures var p := Prepare(r.transport, ch.attempts);
            p.Ready? && HandleSetup(sh, c, open, r, ch).0 == Establish(c, SetupTrack(r), r, p, ch)
  {
    hide Prepare, Establish, StreamEnabled;
  }

  lemma SameReach(x: Track, y: Track, tcp: bool, a: u32, b: u32, port: int, attempts: seq<Attempt>)
    requires Reaches(x, tcp, a, b, port, attempts) && y == x.(active := y.active, ssrc := y.ssrc, seqno := y.seqno)
    ensures Reaches(y, tcp, a, b, port, attempts)
  {
    hide Bound;
  }

  /** The last message repeats the numbers asked for, and the packets of the track named go where these truncate
      to. The track begins a new RTP stream, and the session announced is the client's, kept if it had one. */
  predicate Announces(c: Client, c': Client, r: Request, ch: Choice) {
    && c'.log != [] && c'.log[|c'.log| - 1].Reply? && c'.log[|c'.log| - 1].detail.Session?
    && var t, d := if r.metadata then c'.metadata else c'.video, c'.log[|c'.log| - 1].detail;
       && Asked(r.transport, d.tcp, d.a, d.b)
       && Reaches(t, d.tcp, d.a, d.b, d.serverPort, ch.attempts)
       && t.active && t.seqno == 0 && t.ssrc == ch.ssrc
       && d.id == c'.sessionId && c'.hasSession && c'.streamId == r.stream
       && d.id as int == if c.hasSession then c.sessionId as int else ch.sessionId as int % 0x8000_0000
  }

  lemma SetupAnnounces(sh: Shared, c: Client, open: set<int>, r: Request, ch: Choice)
    requires Ends(HandleSetup(sh, c, open, r, ch).0, 200)
    ensures Announces(c, HandleSetup(sh, c, open, r, ch).0, r, ch)
  {
    hide HandleSetup, Prepare, Reaches, Asked;
    EstablishedBy(sh, c, open, r, ch);
    PrepareReaches(r.transport, ch.attempts);
    var p := Prepare(r.transport, ch.attempts);
    SameReach(p.x, p.x.(active := true, ssrc := ch.ssrc, seqno := 0), p.tcp, p.a, p.b, p.port, ch.attempts);
  }

  lemma NoPortsTrack(transport: Transport, attempts: seq<Attempt>)
    requires Prepare(transport, attempts).NoPorts?
    ensures var x := Prepare(transport, attempts).x; !x.active && x.(rtpFd := -1, rtcpFd := -1) == CLOSED_TRACK
  {
  }

  /** A SETUP that is refused for its stream or header leaves all but the log as it was. */
  lemma SetupRefused(sh: Shared, c: Client, open: set<int>, r: Request, ch: Choice)
    ensures var (c', open') := HandleSetup(sh, c, open, r, ch);
            Ends(c', 400) || Ends(c', 404) ==> c'.(log := c.log) == c && open' == open
  {
    var p := Prepare(r.transport, ch.attempts);
    hide Prepare, StreamEnabled, TrackFds;
    if StreamEnabled(sh, r.stream) && !p.Unusable? {
      EndsOtherwise(sh, c, open, r, ch);
      hide HandleSetup;
    }
  }

  lemma EndsOtherwise(sh: Shared, c: Client, open: set<int>, r: Request, ch: Choice)
    requires StreamEnabled(sh, r.stream) && !Prepare(r.transport, ch.attempts).Unusable?
    ensures var c' := HandleSetup(sh, c, open, r, ch).0; !Ends(c', 400) && !Ends(c', 404)
  {
    hide Prepare, StreamEnabled, TrackFds;
  }

  /** One that finds no ports has closed the track it names; a pair it cannot announce stays with it. */
  lemma SetupWithoutPorts(sh: Shared, c: Client, open: set<int>, r: Request, ch: Choice)
    requires Ends(HandleSetup(sh, c, open, r, ch).0, 500)
    ensures var c' := HandleSetup(sh, c, open, r, ch).0;
            var x := if r.metadata then c'.metadata else c'.video;
            && !x.active && x.(rtpFd := -1, rtcpFd := -1) == CLOSED_TRACK
            && c' == if r.metadata then c.(log := c'.log, metadata := x) else c.(log := c'.log, video := x)
  {
    var p := Prepare(r.transport, ch.attempts);
    if p.NoPorts? {
      NoPortsTrack(r.transport, ch.attempts);
    }
    hide Prepare, StreamEnabled;
  }

  /** Where the reply says the packets of a track will go, taken at its word. */
  predicate AsAnnounced(t: Track, d: Detail)
    requires d.Session?
  {
    if d.tcp then
      match (ViaOf(t, false), ViaOf(t, true))
      case (OnTcp(x), OnTcp(y)) => x as int == d.a as int && y as int == d.b as int
      case _ => false
    else
      match (ViaOf(t, false), ViaOf(t, true))
      case (OnUdp(_, x), OnUdp(_, y)) => x as int == d.a as int && y as int == d.b as int
      case _ => false
  }

  /** After a 200 to SETUP the packets go where the reply says exactly when both numbers are channels, less than
      256, or ports, less than 65536. */
  lemma AnnouncedExactly(sh: Shared, c: Client, open: set<int>, r: Request, ch: Choice)
    requires Ends(HandleSetup(sh, c, open, r, ch).0, 200)
    ensures var c' := HandleSetup(sh, c, open, r, ch).0;
            var t, d := c'.GetTrack(SetupTrack(r)), c'.log[|c'.log| - 1].detail;
            && d.Session?
            && (AsAnnounced(t, d) <==> if d.tcp then d.a < 0x100 && d.b < 0x100 else d.a < 0x1_0000 && d.b < 0x1_0000)
  {
    hide HandleSetup, Asked, Bound;
    SetupAnnounces(sh, c, open, r, ch);
  }

  /** Numbers that are not: `interleaved=300-301` is announced as asked, and the packets go over 44 and 45. */
  lemma AnnouncedElsewhere(sh: Shared, c: Client, open: set<int>, r: Request, ch: Choice)
    requires StreamEnabled(sh, r.stream) && r.transport == Tcp(300, Some(301))
    ensures var c' := HandleSetup(sh, c, open, r, ch).0;
            var t, m := c'.GetTrack(SetupTrack(r)), c'.log[|c'.log| - 1];
            && Ends(c', 200) && m.detail.Session? && m.detail.a == 300 && m.detail.b == 301
            && ViaOf(t, false) == OnTcp(44) && ViaOf(t, true) == OnTcp(45) && !AsAnnounced(t, m.detail)
  {
  }

  // ----- parameter sets -----

  /** The NAL units of one type pushed to a stream that fit the cache, in order. */
  function SetsPushed(es: seq<Event>, stream: nat, t: nat): seq<seq<byte>> {
    if es == [] then []
    else
      var e := es[0];
      (if e.Push? && e.stream == stream && e.nal != [] && NalType(e.nal) == t && |e.nal| <= PARAM_SET_CAP then [e.nal] else [])
      + SetsPushed(es[1..], stream, t)
  }

  function LastOr(sets: seq<seq<byte>>, before: seq<byte>): seq<byte> {
    if sets == [] then before else sets[|sets| - 1]
  }

  lemma LastOrAppend(a: seq<seq<byte>>, b: seq<seq<byte>>, before: seq<byte>)
    ensures LastOr(a + b, before) == LastOr(b, LastOr(a, before))
  {
  }

  lemma StepCaches(s: Server, e: Event, stream: nat, read: Reading)
    requires Shaped(s) && stream < STREAM_COUNT
    ensures var sh, sh' := s.shared, Step(s, e, read).shared;
            && sh'.sps[stream] == LastOr(SetsPushed([e], stream, NAL_SPS), sh.sps[stream])
            && sh'.pps[stream] == LastOr(SetsPushed([e], stream, NAL_PPS), sh.pps[stream])
  {
    assert [e][1..] == [];
    hide HandleRequest, PushTo;
  }

  /** In every run the cached sets of a stream, which DESCRIBE replies carry, are the last ones pushed to it
      that fit the cache. */
  lemma {:induction false} CacheIsLastPushed(s: Server, es: seq<Event>, stream: nat, read: Reading)
    requires Shaped(s) && stream < STREAM_COUNT
    ensures var sh, sh' := s.shared, Run(s, es, read).shared;
            && sh'.sps[stream] == LastOr(SetsPushed(es, stream, NAL_SPS), sh.sps[stream])
            && sh'.pps[stream] == LastOr(SetsPushed(es, stream, NAL_PPS), sh.pps[stream])
    decreases |es|
  {
    if es != [] {
      StepCaches(s, es[0], stream, read);
      CacheIsLastPushed(Step(s, es[0], read), es[1..], stream, read);
      SetsSplit(es, stream, NAL_SPS);
      SetsSplit(es, stream, NAL_PPS);
      LastOrAppend(SetsPushed([es[0]], stream, NAL_SPS), SetsPushed(es[1..], stream, NAL_SPS), s.shared.sps[stream]);
      LastOrAppend(SetsPushed([es[0]], stream, NAL_PPS), SetsPushed(es[1..], stream, NAL_PPS), s.shared.pps[stream]);
      hide Step, SetsPushed, LastOr;
    }
  }

  lemma SetsSplit(es: seq<Event>, stream: nat, t: nat)
    requires es != []
    ensures SetsPushed(es, stream, t) == SetsPushed([es[0]], stream, t) + SetsPushed(es[1..], stream, t)
  {
    assert [es[0]][1..] == [];
  }

  // ----- connections -----

  /** A new connection gets the first free slot, blank but for its socket; with none free it is closed. */
  lemma AcceptExactly(s: Server, fd: int, loopback: bool, read: Reading)
    requires Shaped(s) && fd >= 0
    requires forall i :: 0 <= i < MAX_CLIENTS && s.clients[i].tcpFd < 0 ==> s.clients[i] == FREE_SLOT
    ensures var s' := Step(s, Accept(fd, loopback), read);
            if forall i :: 0 <= i < MAX_CLIENTS ==> s.clients[i].tcpFd >= 0 then s' == s
            else exists i :: 0 <= i < MAX_CLIENTS && Given(s, s', i, fd, loopback)
  {
    match FreeSlot(s.clients)
    case None =>
    case Some(i) =>
      assert ClientFds(s.clients[i]) == {};
      assert Given(s, Step(s, Accept(fd, loopback), read), i, fd, loopback);
  }

  /** `s'` is `s` after the first free slot `i` got the connection. */
  predicate Given(s: Server, s': Server, i: nat, fd: int, loopback: bool)
    requires i < |s.clients|
  {
    && s.clients[i].tcpFd < 0 && (forall j :: 0 <= j < i ==> s.clients[j].tcpFd >= 0)
    && s' == s.(clients := s.clients[i := FREE_SLOT.(tcpFd := fd, loopback := loopback)], open := s.open + {fd})
  }
}

/** The RTSP server as a state machine. One step per event the server can meet: a connection, octets
    received, one buffered request handled, one NAL unit pushed. Random numbers, the clock, descriptor
    numbers and what the kernel answers are part of the event. */
module Session {
  import opened Bytes
  import opened Rtp
  import opened Framing

  const MAX_CLIENTS := 8
  const STREAM_COUNT := 2
  const PARAM_SET_CAP := 128
  const METADATA_INTERVAL_US := 1000000
  const BIND_ATTEMPTS := 16

  /** Text taken from a request up to a CR. */
  type Token = t: seq<byte> | 13 !in t

  // ----- requests, as `handle_request` reads them -----

  datatype Verb = Options | Describe | Setup | Play | GetParameter | Teardown | Unknown

  /** The `Transport` header; the second number may be missing. */
  datatype Transport =
    | TcpNoChannels
    | Tcp(a: u32, b: Option<u32>)
    | UdpNoPorts
    | Udp(a: u32, b: Option<u32>)

  datatype Request = Request(
    verb: Verb,
    cseq: Token,
    uri: Token,
    stream: nat,               // `stream_of`
    metadata: bool,            // `ends_with(uri, "metadata")`
    transport: Transport,
    session: Option<nat>)      // `strtoul` of the `Session` header

  /** How a request's text is read. The theorems hold for every reading. */
  type Reading = seq<byte> -> Request

  // ----- what the peer observes -----

  datatype TrackId = Video | Metadata

  datatype Via = OnTcp(channel: byte) | OnUdp(fd: int, port: u16)

  datatype Detail =
    | NoDetail
    | Challenge
    | PublicMethods
    | FromNow
    | Session(tcp: bool, a: u32, b: u32, serverPort: int, id: u32)
    | Description(base: Token, sps: seq<byte>, pps: seq<byte>, withMetadata: bool)

  datatype Message =
    | Reply(code: nat, cseq: Token, detail: Detail)
    | RtpOut(track: TrackId, via: Via, data: seq<byte>)
    | RtcpOut(track: TrackId, via: Via, data: seq<byte>)

  // ----- state -----

  datatype Track = Track(
    active: bool, interleaved: bool, rtpChannel: byte, rtcpChannel: byte,
    rtpFd: int, rtcpFd: int, rtpPort: u16, rtcpPort: u16, ssrc: u32, seqno: u16)

  const CLOSED_TRACK := Track(false, false, 0, 0, -1, -1, 0, 0, 0, 0)

  /** The receive buffer and, as history of the current connection, the requests taken from it, the
      octets received and how often the buffer was discarded. */
  datatype Inbox = Inbox(rx: seq<byte>, handled: seq<seq<byte>>, received: seq<byte>, discards: nat)

  const EMPTY_INBOX := Inbox([], [], [], 0)

  /** A client slot; `log` is the history of the messages sent on the current connection. */
  datatype Client = Client(
    tcpFd: int, loopback: bool, streamId: nat, hasSession: bool, sessionId: u32,
    playing: bool, waitingForSps: bool, nextMetadataUs: nat,
    video: Track, metadata: Track, inbox: Inbox, log: seq<Message>)
  {
    function GetTrack(t: TrackId): Track {
      if t == Video then video else metadata
    }

    function PutTrack(t: TrackId, x: Track): Client {
      if t == Video then this.(video := x) else this.(metadata := x)
    }

    function Send(m: Message): Client {
      this.(log := log + [m])
    }
  }

  const FREE_SLOT := Client(-1, false, 0, false, 0, false, false, 0, CLOSED_TRACK, CLOSED_TRACK, EMPTY_INBOX, [])

  /** The server fields no client owns; an empty parameter set is one not cached. */
  datatype Shared = Shared(
    enabled: seq<bool>, authEnabled: bool, sps: seq<seq<byte>>, pps: seq<seq<byte>>,
    videoTsBase: seq<u32>, metadataTsBase: u32)

  datatype Server = Server(listenFd: int, clients: seq<Client>, shared: Shared, open: set<int>)

  // ----- the environment's part of an event -----

  /** One round of `bind_udp_pair`: descriptors (or -1), the port of the first bind, whether the second succeeded. */
  datatype Attempt = Attempt(rtp: int, rtcp: int, port: Option<u16>, second: bool)

  datatype Choice = Choice(
    credentialsOk: bool, ssrc: u32, sessionId: u32, attempts: seq<Attempt>, now: nat)

  datatype Event =
    | EnableStream(stream: int)
    | RequireAuth
    | Accept(fd: int, loopback: bool)
    | Hangup(i: nat)
    | Recv(i: nat, data: seq<byte>)
    | Handle(i: nat, choice: Choice)
    | Discard(i: nat)
    | SendMetadata(i: nat, now: nat, clock: u64, xml: seq<byte>)
    | Push(stream: int, nal: seq<byte>, pts: u64, last: bool)
    | Shutdown

  // ----- tracks -----

  function TrackFds(t: Track): set<int> {
    {t.rtpFd, t.rtcpFd} - {-1}
  }

  function ViaOf(t: Track, rtcp: bool): Via {
    if t.interleaved then OnTcp(if rtcp then t.rtcpChannel else t.rtpChannel)
    else OnUdp(if rtcp then t.rtcpFd else t.rtpFd, if rtcp then t.rtcpPort else t.rtpPort)
  }

  /** `rtp_send`: one packet with the track's next sequence number. */
  function RtpSend(c: Client, t: TrackId, pt: nat, marker: bool, ts: u32, payload: seq<byte>): Client
    requires pt < 0x80
  {
    var x := c.GetTrack(t);
    c.PutTrack(t, x.(seqno := Advance(x.seqno, 1)))
     .Send(RtpOut(t, ViaOf(x, false), Encode(Packet(marker, pt, x.seqno, ts, x.ssrc, payload))))
  }

  /** Several payloads of one NAL unit, in order. */
  function RtpSendAll(c: Client, fs: seq<Fragment>, ts: u32): Client
    decreases |fs|
  {
    if fs == [] then c
    else RtpSendAll(RtpSend(c, Video, PT_H264, fs[0].marker, ts, fs[0].payload), fs[1..], ts)
  }

  const BYE_REASON: seq<byte> := [115, 101, 115, 115, 105, 111, 110, 32, 101, 110, 100, 101, 100]

  function Bye(ssrc: u32): seq<byte> {
    [0x81, 0xcb, 0x00, 0x05] + BE32(ssrc) + [|BYE_REASON|] + BYE_REASON + [0, 0]
  }

  function SendBye(c: Client, t: TrackId): Client {
    if c.GetTrack(t).active
    then c.Send(RtcpOut(t, ViaOf(c.GetTrack(t), true), Bye(c.GetTrack(t).ssrc)))
    else c
  }

  function SessionReset(c: Client): Client {
    c.(video := CLOSED_TRACK, metadata := CLOSED_TRACK, hasSession := false, playing := false, waitingForSps := false)
  }

  function ClientFds(c: Client): set<int> {
    ({c.tcpFd} - {-1}) + TrackFds(c.video) + TrackFds(c.metadata)
  }

  /** `bind_udp_pair`: the port it returns and the descriptor pair it leaves on the track. Binding the second
      socket wraps to port 0 after 65535, and the port returned is then -1 although the pair is kept. */
  function BindUdpPair(attempts: seq<Attempt>): (r: (int, Option<(int, int)>)) {
    if attempts == [] then (-1, None)
    else
      var a := attempts[0];
      if a.rtp >= 0 && a.rtcp >= 0 && a.port.Some? && a.second
      then ((a.port.value + 1) % 0x1_0000 - 1, Some((a.rtp, a.rtcp)))
      else BindUdpPair(attempts[1..])
  }

  /** Both sockets are there, the first is bound and the second is bound next to it. */
  predicate Good(a: Attempt) {
    a.rtp >= 0 && a.rtcp >= 0 && a.port.Some? && a.second
  }

  predicate FirstGood(attempts: seq<Attempt>, k: nat) {
    k < |attempts| && Good(attempts[k]) && forall j :: 0 <= j < k ==> !Good(attempts[j])
  }

  /** Binding keeps the pair of the first good attempt and no other, and returns its port, except that 65535
      is followed by port 0 and returned as a failure. */
  predicate BindsFirstGood(attempts: seq<Attempt>, port: int, pair: Option<(int, int)>) {
    && (pair == None <==> forall k :: 0 <= k < |attempts| ==> !Good(attempts[k]))
    && (pair == None ==> port == -1)
    && (forall k :: 0 <= k < |attempts| && FirstGood(attempts, k) ==>
          && pair == Some((attempts[k].rtp, attempts[k].rtcp))
          && port == if attempts[k].port.value == 65535 then -1 else attempts[k].port.value as int)
  }

  lemma {:induction false} BindExactly(attempts: seq<Attempt>)
    ensures BindsFirstGood(attempts, BindUdpPair(attempts).0, BindUdpPair(attempts).1)
    decreases |attempts|
  {
    if attempts != [] {
      var a, rest := attempts[0], attempts[1..];
      assert attempts == [a] + rest;
      if Good(a) {
        assert forall k :: 0 <= k < |attempts| && FirstGood(attempts, k) ==> k == 0;
      } else {
        BindExactly(rest);
        BindsLater(a, rest, BindUdpPair(rest).0, BindUdpPair(rest).1);
      }
    }
  }

  lemma BindsLater(a: Attempt, rest: seq<Attempt>, port: int, pair: Option<(int, int)>)
    requires !Good(a) && BindsFirstGood(rest, port, pair)
    ensures BindsFirstGood([a] + rest, port, pair)
  {
    var all := [a] + rest;
    assert forall k :: 0 <= k < |rest| ==> rest[k] == all[k + 1];
    forall k | 0 <= k < |all| && FirstGood(all, k)
      ensures k > 0 && FirstGood(rest, k - 1)
    {
      assert forall j :: 0 <= j < k - 1 ==> rest[j] == all[j + 1];
    }
    if forall k :: 0 <= k < |rest| ==> !Good(rest[k]) {
      assert forall k :: 0 < k < |all| ==> all[k] == rest[k - 1];
    }
  }

  /** The first good attempt is not the one on the last port there is. */
  predicate Bindable(attempts: seq<Attempt>) {
    exists k :: 0 <= k < |attempts| && FirstGood(attempts, k) && attempts[k].port != Some(65535)
  }

  lemma {:induction false} SomeFirst(attempts: seq<Attempt>, k: nat) returns (f: nat)
    requires k < |attempts| && Good(attempts[k])
    ensures FirstGood(attempts, f)
  {
    if j :| 0 <= j < k && Good(attempts[j]) {
      f := SomeFirst(attempts, j);
    } else {
      f := k;
    }
  }

  lemma BindFails(attempts: seq<Attempt>)
    ensures BindUdpPair(attempts).0 < 0 <==> !Bindable(attempts)
  {
    BindExactly(attempts);
    hide BindUdpPair;
    if k :| 0 <= k < |attempts| && Good(attempts[k]) {
      var f := SomeFirst(attempts, k);
    }
  }

  // ----- requests -----

  predicate StreamEnabled(sh: Shared, s: nat) {
    s < STREAM_COUNT && s < |sh.enabled| && sh.enabled[s]
  }

  /** What is left of the second number when it was not given. */
  function Second(a: u32, b: Option<u32>): u32 {
    match b
    case Some(v) => v
    case None => (a + 1) % 0x1_0000_0000
  }

  function SessionError(c: Client, r: Request): Option<nat> {
    match r.session
    case None => Some(400)
    case Some(v) => if !c.hasSession || v != c.sessionId then Some(454) else None
  }

  function SetupTrack(r: Request): TrackId {
    if r.metadata then Metadata else Video
  }

  /** What `handle_setup` makes of the `Transport` header: nothing, a track without usable ports, or a track. */
  datatype Prepared = Unusable | NoPorts(x: Track) | Ready(x: Track, tcp: bool, a: u32, b: u32, port: int)

  function Prepare(transport: Transport, attempts: seq<Attempt>): Prepared {
    match transport
    case TcpNoChannels => Unusable
    case UdpNoPorts => Unusable
    case Tcp(a, b) =>
      var b := Second(a, b);
      Ready(CLOSED_TRACK.(interleaved := true, rtpChannel := a % 0x100, rtcpChannel := b % 0x100), true, a, b, -1)
    case Udp(a, b) =>
      var b := Second(a, b);
      var (port, pair) := BindUdpPair(attempts);
      var x := if pair.Some? then CLOSED_TRACK.(rtpFd := pair.value.0, rtcpFd := pair.value.1) else CLOSED_TRACK;
      if port < 0 then NoPorts(x)
      else Ready(x.(rtpPort := a % 0x1_0000, rtcpPort := b % 0x1_0000), false, a, b, port)
  }

  /** The end of `handle_setup`: the track starts a new RTP stream. */
  function Establish(c: Client, t: TrackId, r: Request, p: Prepared, ch: Choice): Client
    requires p.Ready?
  {
    var id := if c.hasSession then c.sessionId else ch.sessionId % 0x8000_0000;
    c.PutTrack(t, p.x.(active := true, ssrc := ch.ssrc, seqno := 0))
     .(streamId := r.stream, hasSession := true, sessionId := id)
     .Send(Reply(200, r.cseq, Session(p.tcp, p.a, p.b, p.port, id)))
  }

  function HandleSetup(sh: Shared, c: Client, open: set<int>, r: Request, ch: Choice): (Client, set<int>) {
    var t := SetupTrack(r);
    var p := Prepare(r.transport, ch.attempts);
    if !StreamEnabled(sh, r.stream) then (c.Send(Reply(404, r.cseq, NoDetail)), open)
    else if p.Unusable? then (c.Send(Reply(400, r.cseq, NoDetail)), open)
    else
      var open' := open - TrackFds(c.GetTrack(t)) + TrackFds(p.x);
      if p.NoPorts? then (c.PutTrack(t, p.x).Send(Reply(500, r.cseq, NoDetail)), open')
      else (Establish(c, t, r, p, ch), open')
  }

  function Other(t: TrackId): TrackId {
    if t == Video then Metadata else Video
  }

  /** A SETUP sends one reply, may change the session and the track it names, and nothing else. */
  lemma SetupShape(sh: Shared, c: Client, open: set<int>, r: Request, ch: Choice) returns (m: Message)
    ensures m.Reply? && m.cseq == r.cseq
    ensures var c', t := HandleSetup(sh, c, open, r, ch).0, SetupTrack(r);
            && c' == c.(video := c'.video, metadata := c'.metadata, streamId := c'.streamId,
                        hasSession := c'.hasSession, sessionId := c'.sessionId, log := c.log + [m])
            && c'.GetTrack(Other(t)) == c.GetTrack(Other(t))
            && (!StreamEnabled(sh, r.stream) || Prepare(r.transport, ch.attempts).Unusable? ==> c' == c.Send(m))
  {
    var p := Prepare(r.transport, ch.attempts);
    hide Prepare;
    if !StreamEnabled(sh, r.stream) {
      m := Reply(404, r.cseq, NoDetail);
    } else if p.Unusable? {
      m := Reply(400, r.cseq, NoDetail);
    } else if p.NoPorts? {
      m := Reply(500, r.cseq, NoDetail);
    } else {
      var id := if c.hasSession then c.sessionId else ch.sessionId % 0x8000_0000;
      m := Reply(200, r.cseq, Session(p.tcp, p.a, p.b, p.port, id));
    }
  }

  function HandlePlay(c: Client, r: Request, ch: Choice): Client {
    match SessionError(c, r)
    case Some(code) => c.Send(Reply(code, r.cseq, NoDetail))
    case None =>
      c.Send(Reply(200, r.cseq, FromNow)).(playing := true, waitingForSps := true, nextMetadataUs := ch.now)
  }

  function HandleTeardown(c: Client, open: set<int>, r: Request): (Client, set<int>) {
    match SessionError(c, r)
    case Some(code) => (c.Send(Reply(code, r.cseq, NoDetail)), open)
    case None =>
      (SessionReset(SendBye(SendBye(c, Video), Metadata).Send(Reply(200, r.cseq, NoDetail))),
       open - TrackFds(c.video) - TrackFds(c.metadata))
  }

  /** A DESCRIBE that has to wait for parameter sets. */
  predicate Deferred(sh: Shared, r: Request) {
    r.verb == Describe && StreamEnabled(sh, r.stream) && !Cached(sh, r.stream)
  }

  predicate Cached(sh: Shared, s: nat) {
    s < |sh.sps| && s < |sh.pps| && sh.sps[s] != [] && sh.pps[s] != []
  }

  predicate Authorised(sh: Shared, c: Client, ch: Choice) {
    !sh.authEnabled || c.loopback || ch.credentialsOk
  }

  /** `handle_request`; `None` when the request stays in the buffer. */
  function HandleRequest(sh: Shared, c: Client, open: set<int>, r: Request, ch: Choice): Option<(Client, set<int>)> {
    if !Authorised(sh, c, ch) then Some((c.Send(Reply(401, r.cseq, Challenge)), open))
    else match r.verb
      case Options => Some((c.Send(Reply(200, r.cseq, PublicMethods)), open))
      case Describe =>
        if !StreamEnabled(sh, r.stream) then Some((c.Send(Reply(404, r.cseq, NoDetail)), open))
        else if !Cached(sh, r.stream) then None
        else Some((c.Send(Reply(200, r.cseq, Description(r.uri, sh.sps[r.stream], sh.pps[r.stream], r.stream == 0))), open))
      case Setup => Some(HandleSetup(sh, c, open, r, ch))
      case Play => Some((HandlePlay(c, r, ch), open))
      case GetParameter => Some((c.Send(Reply(200, r.cseq, NoDetail)), open))
      case Teardown => Some(HandleTeardown(c, open, r))
      case Unknown => Some((c.Send(Reply(405, r.cseq, NoDetail)), open))
  }

  /** Any request but SETUP, PLAY and TEARDOWN, and any that is not authorised, adds one reply or is deferred. */
  lemma QuietReply(sh: Shared, c: Client, open: set<int>, r: Request, ch: Choice) returns (m: Message)
    requires Authorised(sh, c, ch) ==> r.verb !in {Setup, Play, Teardown}
    ensures m.Reply? && m.cseq == r.cseq
    ensures HandleRequest(sh, c, open, r, ch) in {None, Some((c.Send(m), open))}
  {
    var h := HandleRequest(sh, c, open, r, ch);
    m := if h.Some? then h.value.0.log[|c.log|] else Reply(0, r.cseq, NoDetail);
  }

  /** The `memmove` in `drain_requests`. */
  function Take(inbox: Inbox, req: seq<byte>): Inbox
    requires req <= inbox.rx
  {
    inbox.(rx := inbox.rx[|req|..], handled := inbox.handled + [req])
  }

  /** One turn of the loop in `drain_requests`. */
  function Consume(sh: Shared, c: Client, open: set<int>, read: Reading, ch: Choice): (Client, set<int>) {
    match NextRequest(c.inbox.rx)
    case None => (c, open)
    case Some(req) =>
      match HandleRequest(sh, c, open, read(req), ch)
      case None => (c, open)
      case Some((c', open')) => (c'.(inbox := Take(c.inbox, req)), open')
  }

  // ----- media -----

  /** `(uint32_t)((pts_us + base) * 9u / 100u)` in 64-bit arithmetic. */
  function Ticks(us: u64, base: u32): u32 {
    (us + base) % 0x1_0000_0000_0000_0000 * 9 % 0x1_0000_0000_0000_0000 / 100 % 0x1_0000_0000
  }

  function CacheParamSet(sh: Shared, s: nat, nal: Nal): Shared
    requires s < |sh.sps| && s < |sh.pps|
  {
    var t := NalType(nal);
    if (t != NAL_SPS && t != NAL_PPS) || |nal| > PARAM_SET_CAP then sh
    else if t == NAL_SPS then sh.(sps := sh.sps[s := nal])
    else sh.(pps := sh.pps[s := nal])
  }

  /** The body of the loop in `rtsp_server_push_nal` for one slot. */
  function PushTo(c: Client, stream: nat, nal: Nal, ts: u32, last: bool): Client {
    if c.tcpFd < 0 || !c.playing || c.streamId != stream || !c.video.active then c
    else if c.waitingForSps && NalType(nal) != NAL_SPS then c
    else RtpSendAll(c.(waitingForSps := false), Packetize(nal, last), ts)
  }

  function PushNal(s: Server, stream: int, nal: seq<byte>, pts: u64, last: bool): Server
    requires Shaped(s)
  {
    if stream < 0 || stream >= STREAM_COUNT || nal == [] then s
    else
      var s' := s.(shared := CacheParamSet(s.shared, stream, nal));
      if NalType(nal) == NAL_SEI then s'
      else
        var ts := Ticks(pts, s.shared.videoTsBase[stream]);
        s'.(clients := seq(MAX_CLIENTS, i requires 0 <= i < MAX_CLIENTS => PushTo(s.clients[i], stream, nal, ts, last)))
  }

  function MetadataPacket(sh: Shared, c: Client, clock: u64, xml: seq<byte>): Client {
    var c' := RtpSend(c, Metadata, PT_METADATA, true, Ticks(clock, sh.metadataTsBase), xml);
    c'.(nextMetadataUs := c.nextMetadataUs + METADATA_INTERVAL_US)
  }

  // ----- steps -----

  /** The fixed array sizes of the C structures. */
  predicate Shaped(s: Server) {
    && |s.clients| == MAX_CLIENTS
    && |s.shared.enabled| == |s.shared.sps| == |s.shared.pps| == |s.shared.videoTsBase| == STREAM_COUNT
  }

  /** The slot `rtsp_server_poll` gives a new connection. */
  function FreeSlot(clients: seq<Client>, i: nat := 0): (r: Option<nat>)
    requires i <= |clients|
    ensures r.Some? ==> i <= r.value < |clients| && clients[r.value].tcpFd < 0
                        && forall j :: i <= j < r.value ==> clients[j].tcpFd >= 0
    ensures r.None? ==> forall j :: i <= j < |clients| ==> clients[j].tcpFd >= 0
    decreases |clients| - i
  {
    if i == |clients| then None
    else if clients[i].tcpFd < 0 then Some(i)
    else FreeSlot(clients, i + 1)
  }

  predicate FreshAttempt(open: set<int>, a: Attempt) {
    && a.rtp >= -1 && a.rtcp >= -1
    && a.rtp !in open && a.rtcp !in open
    && (a.rtp >= 0 ==> a.rtp != a.rtcp)
  }

  /** The kernel hands out unused descriptors only. */
  predicate FreshAttempts(open: set<int>, attempts: seq<Attempt>) {
    |attempts| == BIND_ATTEMPTS && forall a :: a in attempts ==> FreshAttempt(open, a)
  }

  predicate FreshChoice(c: Client, open: set<int>, read: Reading, ch: Choice) {
    NextRequest(c.inbox.rx).Some? ==>
      FreshAttempts(open - TrackFds(c.GetTrack(SetupTrack(read(NextRequest(c.inbox.rx).value)))), ch.attempts)
  }

  /** The kernel's part of an event is possible: descriptors it returns are unused, and it
      delivers no more octets than it was asked for. */
  predicate Honest(s: Server, e: Event, read: Reading) {
    match e
    case Accept(fd, _) => fd >= 0 && fd !in s.open
    case Recv(i, data) => i < |s.clients| ==> 1 <= |data| <= RX_LIMIT - |s.clients[i].inbox.rx|
    case Handle(i, ch) => i < |s.clients| ==> FreshChoice(s.clients[i], s.open, read, ch)
    case SendMetadata(_, _, _, xml) => |xml| <= MAX_PAYLOAD
    case _ => true
  }

  predicate Connected(s: Server, i: nat) {
    i < |s.clients| && s.clients[i].tcpFd >= 0
  }

  /** The server's own guards let the event happen. */
  predicate Guarded(s: Server, e: Event) {
    && s.listenFd in s.open
    && match e
       case Hangup(i) => Connected(s, i)
       case Recv(i, _) => Connected(s, i)
       case Handle(i, _) => Connected(s, i) && NextRequest(s.clients[i].inbox.rx).Some?
       case Discard(i) => Connected(s, i) && |s.clients[i].inbox.rx| >= RX_LIMIT
       case SendMetadata(i, now, _, _) => Connected(s, i) && MetadataDue(s.clients[i], now)
       case _ => true
  }

  predicate MetadataDue(c: Client, now: nat) {
    c.playing && c.metadata.active && now >= c.nextMetadataUs
  }

  function Put(s: Server, i: nat, c: Client): Server
    requires i < |s.clients|
  {
    s.(clients := s.clients[i := c])
  }

  function Append(c: Client, data: seq<byte>): Client {
    c.(inbox := c.inbox.(rx := c.inbox.rx + data, received := c.inbox.received + data))
  }

  function Overflow(c: Client): Client {
    c.(inbox := c.inbox.(rx := [], discards := c.inbox.discards + 1))
  }

  function AcceptInto(s: Server, fd: int, loopback: bool): Server {
    match FreeSlot(s.clients)
    case None => s
    case Some(i) =>
      Put(s, i, FREE_SLOT.(tcpFd := fd, loopback := loopback)).(open := s.open + {fd} - ClientFds(s.clients[i]))
  }

  /** The effect of an event on the slot it names. */
  function StepClient(s: Server, i: nat, e: Event, read: Reading): (Client, set<int>)
    requires i < |s.clients|
  {
    var c := s.clients[i];
    match e
    case Hangup(_) => (FREE_SLOT, s.open - ClientFds(c))
    case Recv(_, data) => (Append(c, data), s.open)
    case Handle(_, ch) => Consume(s.shared, c, s.open, read, ch)
    case Discard(_) => (Overflow(c), s.open)
    case SendMetadata(_, _, clock, xml) => (MetadataPacket(s.shared, c, clock, xml), s.open)
    case _ => (c, s.open)
  }

  function Slot(e: Event): Option<nat> {
    match e
    case Hangup(i) => Some(i)
    case Recv(i, _) => Some(i)
    case Handle(i, _) => Some(i)
    case Discard(i) => Some(i)
    case SendMetadata(i, _, _, _) => Some(i)
    case _ => None
  }

  function Step(s: Server, e: Event, read: Reading): (s': Server)
    requires Shaped(s)
    ensures Shaped(s')
  {
    match Slot(e)
    case Some(i) =>
      if i >= MAX_CLIENTS then s
      else
        var (c, open) := StepClient(s, i, e, read);
        Put(s, i, c).(open := open)
    case None =>
      match e
      case EnableStream(st) =>
        if st < 0 || st >= STREAM_COUNT then s
        else s.(shared := s.shared.(enabled := s.shared.enabled[st := true]))
      case RequireAuth => s.(shared := s.shared.(authEnabled := true))
      case Accept(fd, loopback) => AcceptInto(s, fd, loopback)
      case Push(stream, nal, pts, last) => PushNal(s, stream, nal, pts, last)
      case _ =>
        Server(s.listenFd, seq(MAX_CLIENTS, _ => FREE_SLOT), s.shared, AfterClose(s.open, s.clients) - {s.listenFd})
  }

  /** Descriptors left after `client_reset` of every slot. */
  function AfterClose(open: set<int>, clients: seq<Client>): set<int> {
    if clients == [] then open else AfterClose(open - ClientFds(clients[0]), clients[1..])
  }

  // ----- runs -----

  predicate Legal(s: Server, es: seq<Event>, read: Reading)
    requires Shaped(s)
    decreases |es|
  {
    es == [] || (Guarded(s, es[0]) && Honest(s, es[0], read) && Legal(Step(s, es[0], read), es[1..], read))
  }

  function Run(s: Server, es: seq<Event>, read: Reading): (s': Server)
    requires Shaped(s)
    ensures Shaped(s')
    decreases |es|
  {
    if es == [] then s else Run(Step(s, es[0], read), es[1..], read)
  }

  lemma {:induction false} RunAppend(s: Server, a: seq<Event>, b: seq<Event>, read: Reading)
    requires Shaped(s)
    ensures Run(s, a + b, read) == Run(Run(s, a, read), b, read)
    ensures Legal(s, a + b, read) <==> Legal(s, a, read) && Legal(Run(s, a, read), b, read)
    decreases |a|
  {
    if a == [] {
      assert a + b == b;
    } else {
      assert (a + b)[1..] == a[1..] + b;
      RunAppend(Step(s, a[0], read), a[1..], b, read);
    }
  }

  /** After a successful `rtsp_server_init`. */
  function Init(listenFd: int, videoTsBase: seq<u32>, metadataTsBase: u32): Server {
    Server(listenFd, seq(MAX_CLIENTS, _ => FREE_SLOT),
           Shared([false, false], false, [[], []], [[], []], videoTsBase, metadataTsBase), {listenFd})
  }
}

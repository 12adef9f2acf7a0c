/** Every octet on a TCP connection of the server, from any reachable state, is read back by the demultiplexer. */
module Connections {
  import opened Bytes
  import opened Rtp
  import opened Framing
  import opened Session
  import RT = RtpRoundTrip
  import opened Delivery
  import opened Replies
  import opened EndToEnd
  import I = Invariants
  import P = PollRuns
  import T = TrackRuns
  import R = Requests
  import S = RtspServer
  import W = Wire

  // ----- nothing is ever dropped for its size -----

  predicate AllSmall(ms: seq<Message>) {
    forall m :: m in ms ==> Small(m)
  }

  predicate SmallServer(s: Server) {
    forall i :: 0 <= i < |s.clients| ==> AllSmall(s.clients[i].log)
  }

  lemma SmallAfter(c: Client, c': Client, ms: seq<Message>)
    requires AllSmall(c.log) && AllSmall(ms) && c'.log == c.log + ms
    ensures AllSmall(c'.log)
  {
  }

  lemma SmallConsume(s: Server, i: nat, ch: Choice, read: Reading)
    requires Shaped(s) && i < MAX_CLIENTS && AllSmall(s.clients[i].log)
    ensures AllSmall(Consume(s.shared, s.clients[i], s.open, read, ch).0.log)
  {
    var c := s.clients[i];
    if NextRequest(c.inbox.rx).Some? {
      var ms := T.RequestNoRtp(s.shared, c, s.open, read(NextRequest(c.inbox.rx).value), ch);
      hide HandleRequest;
    }
  }

  lemma SmallPush(c: Client, stream: nat, nal: Nal, ts: u32, last: bool)
    requires AllSmall(c.log)
    ensures AllSmall(PushTo(c, stream, nal, ts, last).log)
  {
    hide PushTo;
    KeepsPush(c, stream, nal, ts, last);
    var c' := PushTo(c, stream, nal, ts, last);
    SmallAfter(c, c', Since(c, c'));
  }

  lemma SmallMetadata(sh: Shared, c: Client, clock: u64, xml: seq<byte>)
    requires AllSmall(c.log) && |xml| <= MAX_PAYLOAD
    ensures AllSmall(MetadataPacket(sh, c, clock, xml).log)
  {
  }

  lemma SmallSlot(s: Server, e: Event, i: nat, read: Reading)
    requires Shaped(s) && i < MAX_CLIENTS && AllSmall(s.clients[i].log) && Honest(s, e, read)
    ensures AllSmall(Step(s, e, read).clients[i].log)
  {
    hide Consume, MetadataPacket, PushTo, AllSmall;
    FreeSmall();
    if e.Handle? && e.i == i {
      SmallConsume(s, i, e.choice, read);
    } else if e.SendMetadata? && e.i == i {
      SmallMetadata(s.shared, s.clients[i], e.clock, e.xml);
    } else if e.Push? && 0 <= e.stream < STREAM_COUNT && e.nal != [] {
      SmallPush(s.clients[i], e.stream, e.nal, Ticks(e.pts, s.shared.videoTsBase[e.stream]), e.last);
    }
  }

  lemma FreeSmall()
    ensures AllSmall(FREE_SLOT.log) && AllSmall([])
  {
  }

  lemma {:induction false} SmallRun(s: Server, es: seq<Event>, read: Reading)
    requires Shaped(s) && SmallServer(s) && Legal(s, es, read)
    ensures SmallServer(Run(s, es, read))
    decreases |es|
  {
    if es != [] {
      forall i | 0 <= i < MAX_CLIENTS
        ensures AllSmall(Step(s, es[0], read).clients[i].log)
      {
        SmallSlot(s, es[0], i, read);
      }
      hide Step, AllSmall, Guarded, Honest;
      SmallRun(Step(s, es[0], read), es[1..], read);
    }
  }

  // ----- the octets -----

  lemma OnWireSmall(m: Message)
    requires Small(m)
    ensures (forall x :: x in OnWire(m) ==> W.WellFormed(x)) && W.EncodeAll(OnWire(m)) == S.TcpOctets(m)
  {
    hide W.WellFormed, Lines, Body, W.Join;
    ItemsWellFormed([m]);
    assert [m][1..] == [] && Items([m]) == OnWire(m) + Items([]);
    assert forall x :: x in OnWire(m) ==> x in Items([m]);
    if OnWire(m) != [] {
      assert OnWire(m)[1..] == [];
    }
  }

  lemma {:induction false} EncodeAllAppend(a: seq<W.Item>, b: seq<W.Item>)
    requires forall x :: x in a + b ==> W.WellFormed(x)
    requires (forall x :: x in a ==> W.WellFormed(x)) && forall x :: x in b ==> W.WellFormed(x)
    ensures W.EncodeAll(a + b) == W.EncodeAll(a) + W.EncodeAll(b)
    decreases |a|
  {
    hide W.WellFormed, W.Encode;
    if a == [] {
      assert a + b == b;
    } else {
      assert (a + b)[1..] == a[1..] + b;
      EncodeAllAppend(a[1..], b);
    }
  }

  lemma {:induction false} ItemsAppend(a: seq<Message>, b: seq<Message>)
    ensures Items(a + b) == Items(a) + Items(b)
    decreases |a|
  {
    hide OnWire;
    if a == [] {
      assert a + b == b;
    } else {
      assert (a + b)[1..] == a[1..] + b;
      ItemsAppend(a[1..], b);
    }
  }

  /** What a slot's socket has been given is the encoding of its log. */
  lemma {:induction false} LogIsEncoded(ms: seq<Message>)
    requires AllSmall(ms)
    ensures (forall x :: x in Items(ms) ==> W.WellFormed(x)) && S.TcpLog(ms) == W.EncodeAll(Items(ms))
    decreases |ms|
  {
    ItemsWellFormed(ms);
    if ms != [] {
      var front, m := ms[..|ms| - 1], ms[|ms| - 1];
      assert ms == front + [m] && Items([m]) == OnWire(m) + [] == OnWire(m);
      LogIsEncoded(front);
      OnWireSmall(m);
      ItemsAppend(front, [m]);
      hide Items, OnWire, W.EncodeAll, S.TcpOctets, W.WellFormed;
      EncodeAllAppend(Items(front), OnWire(m));
    }
  }

  /** A client that reads its connection to the end gets exactly the replies and frames of the log. */
  lemma LogDemultiplexed(ms: seq<Message>)
    requires AllSmall(ms)
    ensures W.DemuxAll(S.TcpLog(ms)) == Items(ms)
  {
    hide W.DemuxAll, S.TcpLog, Items, W.EncodeAll, W.WellFormed;
    LogIsEncoded(ms);
    W.WireRoundTrip(Items(ms));
  }

  /** After any calls from start-up, what each client's socket was given is read back as its log. */
  lemma EveryConnectionReadable(listenFd: int, videoTsBase: seq<u32>, metadataTsBase: u32, calls: seq<P.Call>, read: Reading, i: nat)
    requires listenFd >= 0 && |videoTsBase| == STREAM_COUNT && i < MAX_CLIENTS
    requires P.FairCalls(Init(listenFd, videoTsBase, metadataTsBase), calls, read)
    ensures var s := P.PerformAll(Init(listenFd, videoTsBase, metadataTsBase), calls, read);
            && i < |s.clients| && AllSmall(s.clients[i].log)
            && W.DemuxAll(S.TcpLog(s.clients[i].log)) == Items(s.clients[i].log)
  {
    var s := Init(listenFd, videoTsBase, metadataTsBase);
    I.Reachable(listenFd, videoTsBase, metadataTsBase, [], read);
    P.CallsAreRun(s, calls, read);
    SmallRun(s, P.CallsEvents(s, calls, read), read);
    LogDemultiplexed(P.PerformAll(s, calls, read).clients[i].log);
  }

  // ----- what every message becomes -----

  /** The RTP and RTCP packets sent one way, in order. */
  function Carried(ms: seq<Message>, via: Via): seq<seq<byte>> {
    if ms == [] then []
    else Carried(ms[..|ms| - 1], via)
         + if !ms[|ms| - 1].Reply? && ms[|ms| - 1].via == via then [ms[|ms| - 1].data] else []
  }

  /** The frames of one channel. */
  function Frames(xs: seq<W.Item>, ch: byte): seq<seq<byte>> {
    if xs == [] then []
    else Frames(xs[..|xs| - 1], ch)
         + if xs[|xs| - 1].Frame? && xs[|xs| - 1].channel == ch then [xs[|xs| - 1].data] else []
  }

  function Texts(xs: seq<W.Item>): nat {
    if xs == [] then 0 else Texts(xs[..|xs| - 1]) + if xs[|xs| - 1].Rtsp? then 1 else 0
  }

  function Datagrams(ds: seq<S.Datagram>, fd: int, port: u16): seq<seq<byte>> {
    if ds == [] then []
    else Datagrams(ds[..|ds| - 1], fd, port)
         + if ds[|ds| - 1].fd == fd && ds[|ds| - 1].port == port then [ds[|ds| - 1].data] else []
  }

  lemma OneMoreItem(xs: seq<W.Item>, m: Message, ch: byte)
    ensures Frames(xs + OnWire(m), ch) == Frames(xs, ch) + (if !m.Reply? && m.via == OnTcp(ch) then [m.data] else [])
    ensures Texts(xs + OnWire(m)) == Texts(xs) + if m.Reply? then 1 else 0
  {
    if OnWire(m) == [] {
      assert xs + OnWire(m) == xs;
    } else {
      assert (xs + OnWire(m))[..|xs|] == xs;
    }
  }

  /** Each channel of a connection carries its packets, RTP and RTCP alike, and each reply is there once. */
  lemma {:induction false} FramesAreCarried(ms: seq<Message>, ch: byte)
    ensures Frames(Items(ms), ch) == Carried(ms, OnTcp(ch))
    ensures Texts(Items(ms)) == |R.Replies(ms)|
    decreases |ms|
  {
    hide Frames, Texts, OnWire;
    if ms == [] {
      NoItems(ch);
    } else {
      var front, m := ms[..|ms| - 1], ms[|ms| - 1];
      assert ms == front + [m] && Items([m]) == OnWire(m) + [] == OnWire(m);
      FramesAreCarried(front, ch);
      ItemsAppend(front, [m]);
      OneMoreItem(Items(front), m, ch);
    }
  }

  lemma NoItems(ch: byte)
    ensures Frames([], ch) == [] && Texts([]) == 0
  {
  }

  /** And each pair of ports gets its packets as datagrams. */
  lemma {:induction false} DatagramsAreCarried(ms: seq<Message>, fd: int, port: u16)
    ensures Datagrams(S.UdpLog(ms), fd, port) == Carried(ms, OnUdp(fd, port))
    decreases |ms|
  {
    if ms != [] {
      var front, m := ms[..|ms| - 1], ms[|ms| - 1];
      DatagramsAreCarried(front, fd, port);
      var ds := S.UdpLog(front);
      hide S.UdpLog;
      if S.UdpOut(m) == [] {
        assert ds + S.UdpOut(m) == ds;
      } else {
        assert (ds + S.UdpOut(m))[..|ds|] == ds;
      }
    }
  }

  // ----- datagrams -----

  /** The RTP packets of the datagrams sent from a socket to a port of the client. */
  function FromSocket(ds: seq<S.Datagram>, fd: int, port: u16): seq<Packet> {
    if ds == [] then []
    else
      FromSocket(ds[..|ds| - 1], fd, port)
      + var d := ds[|ds| - 1];
        if d.fd == fd && d.port == port && Parse(d.data).Some? then [Parse(d.data).value] else []
  }

  lemma FromSocketSnoc(ds: seq<S.Datagram>, d: S.Datagram, fd: int, port: u16)
    ensures FromSocket(ds + [d], fd, port)
         == FromSocket(ds, fd, port) + if d.fd == fd && d.port == port && Parse(d.data).Some? then [Parse(d.data).value] else []
  {
    assert (ds + [d])[..|ds|] == ds;
  }

  lemma OneDatagram(ds: seq<S.Datagram>, m: Message, fd: int, port: u16)
    requires Plain(m, OnUdp(fd, port))
    ensures FromSocket(ds + S.UdpOut(m), fd, port) == FromSocket(ds, fd, port) + Packets([m], Video)
  {
    hide Parse, FromSocket;
    assert [m][1..] == [];
    if S.UdpOut(m) == [] {
      assert ds + [] == ds && FromSocket(ds, fd, port) + [] == FromSocket(ds, fd, port);
    } else {
      FromSocketSnoc(ds, S.UdpOut(m)[0], fd, port);
    }
  }

  /** The datagrams of a video track with sockets of its own are exactly the video packets. */
  lemma {:induction false} SocketIsTrack(ms: seq<Message>, fd: int, port: u16)
    requires AllPlain(ms, OnUdp(fd, port))
    ensures FromSocket(S.UdpLog(ms), fd, port) == Packets(ms, Video)
    decreases |ms|
  {
    if ms != [] {
      hide Packets, FromSocket, Plain, S.UdpOut;
      var front, m := ms[..|ms| - 1], ms[|ms| - 1];
      assert ms == front + [m] && m in ms;
      SocketIsTrack(front, fd, port);
      PacketsAppend(front, [m], Video);
      OneDatagram(S.UdpLog(front), m, fd, port);
    }
  }

  /** Over UDP: a client whose network loses and reorders nothing, and that runs an RFC 6184 receiver over
      the datagrams from its video socket, gets exactly the NAL units of its stream, from any reachable
      state, under the same condition on their types. */
  lemma UdpDelivery(s: Server, es: seq<Event>, i: nat, read: Reading)
    requires I.Inv(s) && i < MAX_CLIENTS && Playing(s.clients[i]) && !s.clients[i].video.interleaved
    requires Quiet(s, es, i, read) && Legal(s, es, read)
    ensures var c, c' := s.clients[i], Run(s, es, read).clients[i];
            && s.clients[i].streamId < STREAM_COUNT
            && var us := Gate(c.waitingForSps, Pushed(s.shared, es, c.streamId));
               c.log <= c'.log
               && var packets := FromSocket(S.UdpLog(Since(c, c')), c.video.rtpFd, c.video.rtpPort);
                  (ReceiveAll(Receiver([], None, c.video.seqno), packets).nals == RT.Nals(us)
                   <==> forall u :: u in us ==> Carriable(u.nal))
  {
    ReachablePlaying(s, i);
    SocketsApart(s.shared, s.clients[i]);
    hide Packets, ReceiveAll, Quiet, Legal, Run, FromSocket, I.Inv;
    var c, c' := s.clients[i], Run(s, es, read).clients[i];
    KeepsRun(s, es, i, read);
    SocketIsTrack(Since(c, c'), c.video.rtpFd, c.video.rtpPort);
    DeliveryExactly(s, es, i, read);
  }
}

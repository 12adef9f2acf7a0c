/** What one poll guarantees, and sequences of calls to the server. */
module PollRuns {
  import opened Bytes
  import opened Framing
  import opened Session
  import I = Invariants
  import R = Requests
  import D = Delivery
  import T = TrackRuns
  import opened Poll

  // ----- after a poll -----

  /** Draining stops only when no request is complete or the first is a DESCRIBE that must wait. */
  lemma {:induction false} DrainStops(sh: Shared, c: Client, open: set<int>, read: Reading, choices: nat -> Choice, k: nat)
    ensures var c' := Drain(sh, c, open, read, choices, k).0;
            NextRequest(c'.inbox.rx).Some? ==> Deferred(sh, read(NextRequest(c'.inbox.rx).value))
    decreases |c.inbox.rx|
  {
    var n := NextRequest(c.inbox.rx);
    if n.Some? {
      var m := R.RequestReplies(sh, c, open, read(n.value), choices(k));
      var h := HandleRequest(sh, c, open, read(n.value), choices(k));
      hide HandleRequest, Deferred;
      if h.Some? {
        DrainStops(sh, h.value.0.(inbox := Take(c.inbox, n.value)), h.value.1, read, choices, k + 1);
      }
    }
  }

  /** Draining only adds to the log and to the requests consumed. */
  lemma {:induction false} DrainGrows(sh: Shared, c: Client, open: set<int>, read: Reading, choices: nat -> Choice, k: nat)
    ensures var c' := Drain(sh, c, open, read, choices, k).0;
            && c.log <= c'.log && c.inbox.handled <= c'.inbox.handled && c'.tcpFd == c.tcpFd
            && c'.inbox.received == c.inbox.received
            && D.Packets(D.Since(c, c'), Metadata) == []
    decreases |c.inbox.rx|
  {
    var n := NextRequest(c.inbox.rx);
    var c' := Drain(sh, c, open, read, choices, k).0;
    if n.None? || HandleRequest(sh, c, open, read(n.value), choices(k)).None? {
      T.SinceIs(c, c, []);
    } else {
      var ms := T.RequestNoRtp(sh, c, open, read(n.value), choices(k));
      I.RequestKeepsBuffer(sh, c, open, read(n.value), choices(k));
      var (h, open1) := HandleRequest(sh, c, open, read(n.value), choices(k)).value;
      hide HandleRequest;
      var c1 := h.(inbox := Take(c.inbox, n.value));
      DrainGrows(sh, c1, open1, read, choices, k + 1);
      T.NoRtpNoPackets(ms, Metadata);
      T.SinceIs(c, c1, ms);
      D.SinceTrans(c, c1, c', Metadata);
    }
  }

  /** What follows draining in a poll leaves the requests and the messages alone. */
  lemma Aftermath(sh: Shared, c: Client, now: nat, clock: u64, xml: seq<byte>)
    ensures var c' := Tick(sh, Trim(c), now, clock, xml);
            && c'.tcpFd == c.tcpFd && c.log <= c'.log && c'.inbox.handled == c.inbox.handled
            && c'.inbox.received == c.inbox.received
            && c'.inbox.rx == (if |c.inbox.rx| >= RX_LIMIT then [] else c.inbox.rx)
  {
  }

  /** A client whose connection is gone leaves a free slot, and its descriptors, no others, are closed. */
  lemma GoneIsFreed(sh: Shared, c: Client, open: set<int>, now: nat, input: ClientInput, read: Reading)
    requires c.tcpFd >= 0 && input.received.Gone?
    ensures var (c', open') := PollClient(sh, c, open, now, input, read);
            && c'.tcpFd == -1 && !c'.hasSession && !c'.playing && c'.video == c'.metadata && !c'.video.active
            && c'.video.rtpFd == c'.video.rtcpFd == -1 && c'.inbox.rx == [] && c'.log == []
            && forall fd :: fd >= 0 ==>
                 (fd in open' <==> fd in open && fd !in {c.tcpFd, c.video.rtpFd, c.video.rtcpFd, c.metadata.rtpFd, c.metadata.rtcpFd})
  {
  }

  /** The buffer is thrown away exactly when it holds the 4095 octets that fit before its NUL. */
  lemma OverflowExactly(sh: Shared, c: Client, now: nat, clock: u64, xml: seq<byte>)
    ensures var b, b' := c.inbox, Tick(sh, Trim(c), now, clock, xml).inbox;
            b' == if |b.rx| >= 4095 then b.(rx := [], discards := b.discards + 1) else b
  {
    hide RtpSend;
    R.MetadataKeepsInbox(sh, Trim(c), clock, xml);
    hide MetadataPacket, MetadataDue;
  }

  /** A poll takes in exactly what was received. After it a connected client has room for at least one
      more octet, so the next `recv` is never asked for nothing, and any complete request left is a
      DESCRIBE that must wait. */
  lemma PollLeavesRoom(sh: Shared, c: Client, open: set<int>, now: nat, input: ClientInput, read: Reading)
    requires c.tcpFd >= 0 && !input.received.Gone?
    ensures var c' := PollClient(sh, c, open, now, input, read).0;
            && |c'.inbox.rx| < RX_LIMIT && c'.tcpFd == c.tcpFd
            && c'.inbox.received == c.inbox.received + (if input.received.Data? then input.received.octets else [])
            && (NextRequest(c'.inbox.rx).Some? ==> Deferred(sh, read(NextRequest(c'.inbox.rx).value)))
  {
    var c1 := TakeIn(c, input.received);
    DrainStops(sh, c1, open, read, input.choices, 0);
    DrainGrows(sh, c1, open, read, input.choices, 0);
    assert NextRequest([]).None?;
    Aftermath(sh, Drain(sh, c1, open, read, input.choices, 0).0, now, input.clock, input.xml);
    hide Drain, Deferred, Trim, Tick, TakeIn, NextRequest;
  }

  /** Late or not, a poll sends one metadata packet, and never more, exactly when the client drained of its
      requests plays, has its metadata track and the time of its next packet has come. That time then moves on
      by one second. */
  lemma OneMetadataPerPoll(sh: Shared, c: Client, open: set<int>, now: nat, input: ClientInput, read: Reading)
    requires c.tcpFd >= 0 && !input.received.Gone?
    ensures var c' := PollClient(sh, c, open, now, input, read).0;
            var d := Drain(sh, TakeIn(c, input.received), open, read, input.choices, 0).0;
            var sent := if d.playing && d.metadata.active && now >= d.nextMetadataUs then 1 else 0;
            && c.log <= c'.log && |D.Packets(D.Since(c, c'), Metadata)| == sent
            && c'.playing == d.playing && c'.metadata.active == d.metadata.active
            && c'.nextMetadataUs == d.nextMetadataUs + 1000000 * sent
  {
    var c1 := TakeIn(c, input.received);
    var c2 := Drain(sh, c1, open, read, input.choices, 0).0;
    DrainGrows(sh, c1, open, read, input.choices, 0);
    hide Drain;
    T.SinceIs(c, c1, []);
    D.SinceTrans(c, c1, c2, Metadata);
    var c3 := Trim(c2);
    var c4 := Tick(sh, c3, now, input.clock, input.xml);
    AfterTick(sh, c2, now, input.clock, input.xml);
    if MetadataDue(c3, now) {
      T.MetadataNumbered(sh, c3, input.clock, input.xml, Metadata);
    } else {
      T.SinceIs(c3, c4, []);
    }
    T.SinceIs(c2, c3, []);
    D.SinceTrans(c2, c3, c4, Metadata);
    D.SinceTrans(c, c2, c4, Metadata);
  }

  lemma AfterTick(sh: Shared, c: Client, now: nat, clock: u64, xml: seq<byte>)
    ensures var c' := Tick(sh, Trim(c), now, clock, xml);
            var sent := if c.playing && c.metadata.active && now >= c.nextMetadataUs then 1 else 0;
            && MetadataDue(Trim(c), now) == (sent == 1)
            && c'.playing == c.playing && c'.metadata.active == c.metadata.active
            && c'.nextMetadataUs == c.nextMetadataUs + 1000000 * sent
  {
  }

  /** A complete request stays the first one when more octets arrive. */
  lemma NextAppend(rx: seq<byte>, data: seq<byte>)
    requires NextRequest(rx).Some?
    ensures NextRequest(rx + data) == NextRequest(rx)
  {
    var s := CString(rx);
    CStringAppend(rx, data);
    var more := CString(rx + data)[|s|..];
    assert CString(rx + data) == s + more;
    FindAppend(s, more);
    var k := Find(s).value;
    assert (s + more)[..k + 4] == s[..k + 4];
  }

  lemma {:induction false} CStringAppend(a: seq<byte>, b: seq<byte>)
    ensures CString(a) <= CString(a + b)
  {
    if a != [] && a[0] != 0 {
      assert (a + b)[1..] == a[1..] + b;
      CStringAppend(a[1..], b);
    }
  }

  /** A waiting DESCRIBE is answered by the next poll once both parameter sets are cached - and they
      are the ones cached at that moment. */
  lemma AnsweredNextPoll(sh: Shared, c: Client, open: set<int>, now: nat, input: ClientInput, read: Reading)
    requires c.tcpFd >= 0 && !input.received.Gone? && NextRequest(c.inbox.rx).Some?
    requires var r := read(NextRequest(c.inbox.rx).value);
             r.verb == Describe && StreamEnabled(sh, r.stream) && Cached(sh, r.stream)
    requires Authorised(sh, c, input.choices(0))
    ensures var c', req := PollClient(sh, c, open, now, input, read).0, NextRequest(c.inbox.rx).value;
            var r := read(req);
            && c.inbox.handled + [req] <= c'.inbox.handled
            && c.log + [Reply(200, r.cseq, Description(r.uri, sh.sps[r.stream], sh.pps[r.stream], r.stream == 0))] <= c'.log
  {
    var c1 := TakeIn(c, input.received);
    if input.received.Data? {
      NextAppend(c.inbox.rx, input.received.octets);
    }
    DescribeAnswered(sh, c1, open, input.choices, read);
    Aftermath(sh, Drain(sh, c1, open, read, input.choices, 0).0, now, input.clock, input.xml);
    hide Drain, Trim, Tick, NextRequest;
  }

  lemma DescribeAnswered(sh: Shared, c: Client, open: set<int>, choices: nat -> Choice, read: Reading)
    requires NextRequest(c.inbox.rx).Some? && Authorised(sh, c, choices(0))
    requires var r := read(NextRequest(c.inbox.rx).value);
             r.verb == Describe && StreamEnabled(sh, r.stream) && Cached(sh, r.stream)
    ensures var c', req := Drain(sh, c, open, read, choices, 0).0, NextRequest(c.inbox.rx).value;
            var r := read(req);
            && c.inbox.handled + [req] <= c'.inbox.handled
            && c.log + [Reply(200, r.cseq, Description(r.uri, sh.sps[r.stream], sh.pps[r.stream], r.stream == 0))] <= c'.log
  {
    var req := NextRequest(c.inbox.rx).value;
    var r := read(req);
    var c1 := c.Send(Reply(200, r.cseq, Description(r.uri, sh.sps[r.stream], sh.pps[r.stream], r.stream == 0)));
    assert HandleRequest(sh, c, open, r, choices(0)) == Some((c1, open));
    var c2 := c1.(inbox := Take(c.inbox, req));
    hide HandleRequest;
    DrainGrows(sh, c2, open, read, choices, 1);
    assert Drain(sh, c, open, read, choices, 0) == Drain(sh, c2, open, read, choices, 1);
    hide Drain;
  }

  // ----- sequences of calls -----

  datatype Call =
    | CallPoll(input: PollInput)
    | CallPush(stream: int, nal: seq<byte>, pts: u64, last: bool)
    | CallEnable(stream: int)
    | CallRequireAuth

  function Perform(s: Server, call: Call, read: Reading): (s': Server)
    requires Shaped(s)
    ensures Shaped(s')
  {
    match call
    case CallPoll(input) => PollServer(s, input, read)
    case CallPush(stream, nal, pts, last) => PushNal(s, stream, nal, pts, last)
    case CallEnable(stream) => Step(s, EnableStream(stream), read)
    case CallRequireAuth => Step(s, RequireAuth, read)
  }

  function PerformAll(s: Server, calls: seq<Call>, read: Reading): (s': Server)
    requires Shaped(s)
    ensures Shaped(s')
    decreases |calls|
  {
    if calls == [] then s else PerformAll(Perform(s, calls[0], read), calls[1..], read)
  }

  predicate FairCalls(s: Server, calls: seq<Call>, read: Reading)
    requires Shaped(s)
    decreases |calls|
  {
    calls == [] ||
    ((calls[0].CallPoll? ==> Fair(s, calls[0].input, read)) && FairCalls(Perform(s, calls[0], read), calls[1..], read))
  }

  /** The events a call stands for. */
  function CallEvents(s: Server, call: Call, read: Reading): seq<Event>
    requires Shaped(s)
  {
    match call
    case CallPoll(input) => PollEvents(s, input, read)
    case CallPush(stream, nal, pts, last) => [Push(stream, nal, pts, last)]
    case CallEnable(stream) => [EnableStream(stream)]
    case CallRequireAuth => [RequireAuth]
  }

  function CallsEvents(s: Server, calls: seq<Call>, read: Reading): seq<Event>
    requires Shaped(s)
    decreases |calls|
  {
    if calls == [] then [] else CallEvents(s, calls[0], read) + CallsEvents(Perform(s, calls[0], read), calls[1..], read)
  }

  /** Any interleaving of calls, with a fair kernel, is exactly the run of their events, and a legal one. */
  lemma {:induction false} CallsAreRun(s: Server, calls: seq<Call>, read: Reading)
    requires Live(s) && FairCalls(s, calls, read)
    ensures var es := CallsEvents(s, calls, read);
            Legal(s, es, read) && Live(Run(s, es, read)) && Run(s, es, read) == PerformAll(s, calls, read)
    decreases |calls|
  {
    hide Legal, FairCalls, Fair, Run, Step, CallEvents, Perform;
    if calls == [] {
      NoCalls(s, read);
    } else {
      FirstCall(s, calls, read);
      var es, s1 := CallEvents(s, calls[0], read), Perform(s, calls[0], read);
      CallIsRun(s, calls[0], read);
      CallsAreRun(s1, calls[1..], read);
      RunAppend(s, es, CallsEvents(s1, calls[1..], read), read);
    }
  }

  lemma NoCalls(s: Server, read: Reading)
    requires Shaped(s)
    ensures Legal(s, [], read) && Run(s, [], read) == s
  {
  }

  lemma FirstCall(s: Server, calls: seq<Call>, read: Reading)
    requires Shaped(s) && calls != [] && FairCalls(s, calls, read)
    ensures calls[0].CallPoll? ==> Fair(s, calls[0].input, read)
    ensures FairCalls(Perform(s, calls[0], read), calls[1..], read)
  {
  }

  /** Each call is the run of its events. */
  lemma CallIsRun(s: Server, call: Call, read: Reading)
    requires Live(s) && (call.CallPoll? ==> Fair(s, call.input, read))
    ensures var es := CallEvents(s, call, read);
            Legal(s, es, read) && Live(Run(s, es, read)) && Run(s, es, read) == Perform(s, call, read)
  {
    match call {
      case CallPoll(input) =>
        hide PollEvents, PollServer;
        PollIsRun(s, input, read);
      case _ =>
        var e := CallEvents(s, call, read)[0];
        RunOne(s, e, read);
        ListenerStays(s, e, read);
    }
  }

  /** After any sequence of calls from start-up: sessions and descriptors are in order, and every
      connection's books balance. */
  lemma CallsKeepEverything(listenFd: int, videoTsBase: seq<u32>, metadataTsBase: u32, calls: seq<Call>, read: Reading)
    requires listenFd >= 0 && |videoTsBase| == STREAM_COUNT
    requires FairCalls(Init(listenFd, videoTsBase, metadataTsBase), calls, read)
    ensures var s := PerformAll(Init(listenFd, videoTsBase, metadataTsBase), calls, read);
            && Live(s)
            && forall i :: 0 <= i < MAX_CLIENTS ==> R.Balanced(s.clients[i], read)
  {
    var s := Init(listenFd, videoTsBase, metadataTsBase);
    I.Reachable(listenFd, videoTsBase, metadataTsBase, [], read);
    CallsAreRun(s, calls, read);
    forall i | 0 <= i < MAX_CLIENTS ensures R.Balanced(s.clients[i], read) {
      R.FreeBalanced(s.clients[i], read);
    }
    R.RunBalanced(s, CallsEvents(s, calls, read), read);
  }
}

/** Delivery, numbering and pacing over any interleaving of calls to the server. */
module CallRuns {
  import opened Bytes
  import opened Rtp
  import RT = RtpRoundTrip
  import opened Framing
  import opened Session
  import I = Invariants
  import R = Requests
  import opened Delivery
  import E = EndToEnd
  import C = Connections
  import S = RtspServer
  import W = Wire
  import T = TrackRuns
  import opened Poll
  import opened PollRuns
  import opened Chunking

  // ----- what calls push -----

  /** The NAL units `rtsp_server_push_nal` is called with for a stream, SEI left out. */
  function PushedCalls(sh: Shared, calls: seq<Call>, stream: nat): seq<RT.Unit>
    requires stream < |sh.videoTsBase|
    decreases |calls|
  {
    if calls == [] then []
    else
      var c := calls[0];
      (if c.CallPush? && c.stream == stream && c.nal != [] && NalType(c.nal) != NAL_SEI
       then [RT.Unit(c.nal, c.last, Ticks(c.pts, sh.videoTsBase[stream]))] else [])
      + PushedCalls(sh, calls[1..], stream)
  }

  /** Neither a push nor the end of the server, and a disconnection only where `recv` says so. */
  predicate PollEvent(e: Event, input: PollInput) {
    !e.Push? && e != Shutdown && (e.Hangup? ==> input.client(e.i).received.Gone?)
  }

  predicate AllPollEvents(es: seq<Event>, input: PollInput) {
    forall k :: 0 <= k < |es| ==> PollEvent(es[k], input)
  }

  lemma AllPollAppend(a: seq<Event>, b: seq<Event>, input: PollInput)
    requires AllPollEvents(a, input) && AllPollEvents(b, input)
    ensures AllPollEvents(a + b, input)
  {
  }

  lemma FewArePoll(e: Event, input: PollInput)
    ensures AllPollEvents([], input) && (PollEvent(e, input) ==> AllPollEvents([e], input))
  {
  }

  lemma {:induction false} DrainPushesNothing(sh: Shared, c: Client, open: set<int>, read: Reading, i: nat, choices: nat -> Choice, k: nat, input: PollInput)
    ensures AllPollEvents(DrainEvents(sh, c, open, read, i, choices, k), input)
    decreases |c.inbox.rx|
  {
    hide HandleRequest, AllPollEvents;
    FewArePoll(Handle(i, choices(k)), input);
    var n := NextRequest(c.inbox.rx);
    if n.Some? && HandleRequest(sh, c, open, read(n.value), choices(k)).Some? {
      var (h, open1) := HandleRequest(sh, c, open, read(n.value), choices(k)).value;
      var c1 := h.(inbox := Take(c.inbox, n.value));
      DrainPushesNothing(sh, c1, open1, read, i, choices, k + 1, input);
      AllPollAppend([Handle(i, choices(k))], DrainEvents(sh, c1, open1, read, i, choices, k + 1), input);
    }
  }

  lemma ClientPushesNothing(sh: Shared, c: Client, open: set<int>, i: nat, input: PollInput, read: Reading)
    ensures AllPollEvents(ClientEvents(sh, c, open, i, input.now, input.client(i), read), input)
  {
    hide DrainEvents, Drain, TakeIn, AllPollEvents;
    var x := input.client(i);
    var c1 := TakeIn(c, x.received);
    var c2 := Drain(sh, c1, open, read, x.choices, 0).0;
    var r, d := RecvEvents(i, x.received), DrainEvents(sh, c1, open, read, i, x.choices, 0);
    var t, u := TrimEvents(i, c2), TickEvents(i, Trim(c2), input.now, x.clock, x.xml);
    DrainPushesNothing(sh, c1, open, read, i, x.choices, 0, input);
    FewArePoll(Hangup(i), input);
    FewArePoll(Discard(i), input);
    FewArePoll(SendMetadata(i, input.now, x.clock, x.xml), input);
    if x.received.Data? {
      FewArePoll(Session.Recv(i, x.received.octets), input);
    }
    AllPollAppend(r, d, input);
    AllPollAppend(t, u, input);
    AllPollAppend(r + d, t + u, input);
  }

  lemma {:induction false} FromPushesNothing(s: Server, j: nat, input: PollInput, read: Reading)
    requires Shaped(s) && j <= MAX_CLIENTS
    ensures AllPollEvents(EventsFrom(s, j, input, read), input)
    decreases MAX_CLIENTS - j
  {
    hide ClientEvents, PollClient, AllPollEvents;
    FewArePoll(RequireAuth, input);
    if j < MAX_CLIENTS {
      var (c, open) := PollClient(s.shared, s.clients[j], s.open, input.now, input.client(j), read);
      var s1 := Put(s, j, c).(open := open);
      ClientPushesNothing(s.shared, s.clients[j], s.open, j, input, read);
      FromPushesNothing(s1, j + 1, input, read);
      AllPollAppend(ClientEvents(s.shared, s.clients[j], s.open, j, input.now, input.client(j), read), EventsFrom(s1, j + 1, input, read), input);
    }
  }

  /** A poll pushes nothing, and disconnects only whom the kernel reports gone. */
  lemma PollPushesNothing(s: Server, input: PollInput, read: Reading)
    requires Shaped(s)
    ensures AllPollEvents(PollEvents(s, input, read), input)
  {
    hide EventsFrom, Accepting, AllPollEvents;
    FromPushesNothing(Accepting(s, input.connection), 0, input, read);
    FewArePoll(RequireAuth, input);
    if input.connection.Some? {
      FewArePoll(AcceptEvents(input.connection)[0], input);
    }
    AllPollAppend(AcceptEvents(input.connection), EventsFrom(Accepting(s, input.connection), 0, input, read), input);
  }

  lemma {:induction false} PushedNone(sh: Shared, es: seq<Event>, stream: nat, input: PollInput)
    requires stream < |sh.videoTsBase| && AllPollEvents(es, input)
    ensures Pushed(sh, es, stream) == []
    decreases |es|
  {
    if es != [] {
      assert PollEvent(es[0], input);
      assert forall k :: 0 <= k < |es[1..]| ==> es[1..][k] == es[k + 1];
      PushedNone(sh, es[1..], stream, input);
    }
  }

  lemma {:induction false} PushedAppend(sh: Shared, a: seq<Event>, b: seq<Event>, stream: nat)
    requires stream < |sh.videoTsBase|
    ensures Pushed(sh, a + b, stream) == Pushed(sh, a, stream) + Pushed(sh, b, stream)
    decreases |a|
  {
    hide PushedBy;
    if a == [] {
      assert a + b == b;
    } else {
      assert (a + b)[1..] == a[1..] + b;
      PushedAppend(sh, a[1..], b, stream);
    }
  }

  lemma CallPushes(sh: Shared, s: Server, call: Call, stream: nat, read: Reading)
    requires Shaped(s) && stream < |sh.videoTsBase|
    ensures Pushed(sh, CallEvents(s, call, read), stream) == PushedCalls(sh, [call], stream)
  {
    hide PollEvents, Ticks;
    assert [call][1..] == [];
    if call.CallPoll? {
      PollPushesNothing(s, call.input, read);
      PushedNone(sh, PollEvents(s, call.input, read), stream, call.input);
    } else {
      var e := CallEvents(s, call, read)[0];
      assert CallEvents(s, call, read)[1..] == [];
      assert Pushed(sh, [e], stream) == PushedBy(sh, e, stream) + Pushed(sh, [], stream);
    }
  }

  /** The events of calls push exactly what the calls push. */
  lemma {:induction false} CallsPush(sh: Shared, s: Server, calls: seq<Call>, stream: nat, read: Reading)
    requires Shaped(s) && stream < |sh.videoTsBase|
    ensures Pushed(sh, CallsEvents(s, calls, read), stream) == PushedCalls(sh, calls, stream)
    decreases |calls|
  {
    hide CallEvents, Perform, Pushed, Ticks;
    if calls == [] {
      PushedNothing(sh, stream);
    } else {
      var s1 := Perform(s, calls[0], read);
      CallPushes(sh, s, calls[0], stream, read);
      CallsPush(sh, s1, calls[1..], stream, read);
      PushedAppend(sh, CallEvents(s, calls[0], read), CallsEvents(s1, calls[1..], read), stream);
      assert [calls[0]][1..] == [];
    }
  }

  lemma PushedNothing(sh: Shared, stream: nat)
    requires stream < |sh.videoTsBase|
    ensures Pushed(sh, [], stream) == []
  {
  }

  // ----- quiet calls -----

  /** No disconnection of client `i`. */
  predicate Undisturbed(es: seq<Event>, i: nat) {
    forall k :: 0 <= k < |es| ==> es[k] != Hangup(i) && es[k] != Shutdown
  }

  /** None of these requests asks for a session. */
  predicate Harmless(handled: seq<seq<byte>>, from: nat, read: Reading) {
    forall k :: from <= k < |handled| ==> read(handled[k]).verb !in {Setup, Play, Teardown}
  }

  /** Handling a request appends it to the history, and one that ends an episode is always handled. */
  lemma ConsumeGrows(s: Server, i: nat, ch: Choice, read: Reading)
    requires Shaped(s) && i < MAX_CLIENTS && NextRequest(s.clients[i].inbox.rx).Some?
    ensures var c, c', req := s.clients[i], Consume(s.shared, s.clients[i], s.open, read, ch).0, NextRequest(s.clients[i].inbox.rx).value;
            && c'.tcpFd == c.tcpFd && (c' == c || c'.inbox.handled == c.inbox.handled + [req])
            && (EndsEpisode(s.shared, c, read(req), ch) ==>
                  c'.inbox.handled == c.inbox.handled + [req] && read(req).verb in {Setup, Play, Teardown})
  {
    hide HandleRequest, EndsEpisode, NextRequest;
    var c := s.clients[i];
    var r := read(NextRequest(c.inbox.rx).value);
    I.RequestKeepsBuffer(s.shared, c, s.open, r, ch);
    EndingIsConsumed(s.shared, c, s.open, r, ch);
  }

  lemma EndingIsConsumed(sh: Shared, c: Client, open: set<int>, r: Request, ch: Choice)
    ensures EndsEpisode(sh, c, r, ch) ==> HandleRequest(sh, c, open, r, ch).Some? && r.verb in {Setup, Play, Teardown}
  {
    hide HandleSetup, HandlePlay, HandleTeardown, Prepare, StreamEnabled;
  }

  /** Nothing shortens the history, and what interrupts client `i` is in it. */
  lemma HandledGrows(s: Server, e: Event, i: nat, read: Reading)
    requires Shaped(s) && Connected(s, i) && e != Hangup(i) && e != Shutdown
    ensures var h, h' := s.clients[i].inbox.handled, Step(s, e, read).clients[i].inbox.handled;
            && Connected(Step(s, e, read), i) && h <= h'
            && (Interrupts(s, e, i, read) ==> |h| < |h'| && read(h'[|h|]).verb in {Setup, Play, Teardown})
  {
    if e.Handle? && e.i == i {
      hide Consume, EndsEpisode, NextRequest;
      if NextRequest(s.clients[i].inbox.rx).Some? {
        ConsumeGrows(s, i, e.choice, read);
      } else {
        NothingToConsume(s, i, e.choice, read);
      }
    } else {
      hide Step, EndsEpisode;
      OtherKeepsHandled(s, e, i, read);
    }
  }

  lemma OtherKeepsHandled(s: Server, e: Event, i: nat, read: Reading)
    requires Shaped(s) && Connected(s, i) && e != Hangup(i) && e != Shutdown && !(e.Handle? && e.i == i)
    ensures Connected(Step(s, e, read), i) && Step(s, e, read).clients[i].inbox.handled == s.clients[i].inbox.handled
  {
    hide Consume, PushTo, Ticks, MetadataPacket;
    if e.Push? && 0 <= e.stream < STREAM_COUNT && e.nal != [] {
      I.PushKeeps(s.clients[i], e.stream, e.nal, Ticks(e.pts, s.shared.videoTsBase[e.stream]), e.last);
    } else if e.SendMetadata? && e.i == i {
      R.MetadataKeepsInbox(s.shared, s.clients[i], e.clock, e.xml);
    }
  }

  lemma NothingToConsume(s: Server, i: nat, ch: Choice, read: Reading)
    requires i < |s.clients| && NextRequest(s.clients[i].inbox.rx).None?
    ensures Consume(s.shared, s.clients[i], s.open, read, ch).0 == s.clients[i]
  {
    hide NextRequest;
  }

  lemma {:induction false} RunHandledGrows(s: Server, es: seq<Event>, i: nat, read: Reading)
    requires Shaped(s) && Connected(s, i) && Undisturbed(es, i)
    ensures s.clients[i].inbox.handled <= Run(s, es, read).clients[i].inbox.handled
    decreases |es|
  {
    hide Step, Interrupts;
    if es != [] {
      assert Undisturbed(es[1..], i) by {
        assert forall k :: 0 <= k < |es[1..]| ==> es[1..][k] == es[k + 1];
      }
      assert es[0] != Hangup(i) && es[0] != Shutdown;
      HandledGrows(s, es[0], i, read);
      RunHandledGrows(Step(s, es[0], read), es[1..], i, read);
    }
  }

  /** A run that keeps the connection and handles no SETUP, PLAY or TEARDOWN of client `i` is quiet. */
  lemma {:induction false} HarmlessIsQuiet(s: Server, es: seq<Event>, i: nat, read: Reading)
    requires Shaped(s) && Connected(s, i) && i < MAX_CLIENTS && Undisturbed(es, i)
    requires Harmless(Run(s, es, read).clients[i].inbox.handled, |s.clients[i].inbox.handled|, read)
    ensures Quiet(s, es, i, read)
    decreases |es|
  {
    if es != [] {
      var s1, final := Step(s, es[0], read), Run(s, es, read).clients[i].inbox.handled;
      assert Undisturbed(es[1..], i) by {
        assert forall k :: 0 <= k < |es[1..]| ==> es[1..][k] == es[k + 1];
      }
      assert es[0] != Hangup(i) && es[0] != Shutdown;
      HandledGrows(s, es[0], i, read);
      hide Step, Undisturbed, Interrupts;
      RunHandledGrows(s1, es[1..], i, read);
      HarmlessStep(s.clients[i].inbox.handled, s1.clients[i].inbox.handled, final, read);
      HarmlessIsQuiet(s1, es[1..], i, read);
    }
  }

  lemma HarmlessStep(h: seq<seq<byte>>, h': seq<seq<byte>>, final: seq<seq<byte>>, read: Reading)
    requires h <= h' <= final && Harmless(final, |h|, read)
    ensures Harmless(final, |h'|, read) && (|h| < |h'| ==> read(h'[|h|]).verb !in {Setup, Play, Teardown})
  {
    assert |h| < |h'| ==> h'[|h|] == final[|h|];
  }

  lemma CallUndisturbed(s: Server, call: Call, i: nat, read: Reading)
    requires Shaped(s) && !Chunking.Delivered(call, i).Gone?
    ensures Undisturbed(CallEvents(s, call, read), i)
  {
    if call.CallPoll? {
      PollPushesNothing(s, call.input, read);
      hide PollEvents;
      var es := CallEvents(s, call, read);
      forall k | 0 <= k < |es|
        ensures es[k] != Hangup(i) && es[k] != Shutdown
      {
        assert PollEvent(es[k], call.input);
      }
    }
  }

  lemma {:induction false} CallsUndisturbed(s: Server, calls: seq<Call>, i: nat, read: Reading)
    requires Shaped(s) && Stays(calls, i)
    ensures Undisturbed(CallsEvents(s, calls, read), i)
    decreases |calls|
  {
    hide CallEvents, Perform, Stays;
    if calls != [] {
      StaysRest(calls, i);
      CallUndisturbed(s, calls[0], i, read);
      CallsUndisturbed(Perform(s, calls[0], read), calls[1..], i, read);
    }
  }

  /** Calls that keep client `i` connected and handle no SETUP, PLAY or TEARDOWN of it are quiet. */
  lemma HarmlessCallsAreQuiet(s: Server, calls: seq<Call>, i: nat, read: Reading)
    requires Live(s) && FairCalls(s, calls, read) && Connected(s, i) && i < MAX_CLIENTS && Stays(calls, i)
    requires Harmless(PerformAll(s, calls, read).clients[i].inbox.handled, |s.clients[i].inbox.handled|, read)
    ensures Quiet(s, CallsEvents(s, calls, read), i, read)
  {
    hide FairCalls, Stays, PerformAll, CallsEvents, Harmless, Run, Quiet, Legal, Undisturbed;
    CallsAreRun(s, calls, read);
    CallsUndisturbed(s, calls, i, read);
    HarmlessIsQuiet(s, CallsEvents(s, calls, read), i, read);
  }

  // ----- delivery -----

  /** Delivery over calls: a client that plays its video track recovers exactly the NAL units pushed to its
      stream past the gate, whatever else is pushed, received, requested or polled, up to the event that
      ends its episode, under the same condition on their types. */
  lemma DeliveryOverCalls(s: Server, calls: seq<Call>, i: nat, read: Reading)
    requires Live(s) && FairCalls(s, calls, read) && i < MAX_CLIENTS && Playing(s.clients[i])
    requires Quiet(s, CallsEvents(s, calls, read), i, read)
    ensures var c, c' := s.clients[i], PerformAll(s, calls, read).clients[i];
            && c.streamId < STREAM_COUNT && c.log <= c'.log
            && var us := Gate(c.waitingForSps, PushedCalls(s.shared, calls, c.streamId));
               (Recovered(c, c') == RT.Nals(us) <==> forall u :: u in us ==> Carriable(u.nal))
  {
    E.ReachablePlaying(s, i);
    hide Quiet, Recovered, Gate, CallsEvents, PerformAll, FairCalls, Run, Legal;
    CallsAreRun(s, calls, read);
    CallsPush(s.shared, s, calls, s.clients[i].streamId, read);
    DeliveryExactly(s, CallsEvents(s, calls, read), i, read);
  }

  /** End to end over calls, on an interleaved track: the same from the octets of the TCP connection. */
  lemma EndToEndOverCalls(s: Server, calls: seq<Call>, i: nat, ch: byte, read: Reading)
    requires Live(s) && FairCalls(s, calls, read) && i < MAX_CLIENTS && Playing(s.clients[i])
    requires Quiet(s, CallsEvents(s, calls, read), i, read)
    requires ViaOf(s.clients[i].video, false) == OnTcp(ch) && ViaOf(s.clients[i].metadata, false) != OnTcp(ch)
    ensures var c, c' := s.clients[i], PerformAll(s, calls, read).clients[i];
            && c.streamId < STREAM_COUNT && c.log <= c'.log && (forall m :: m in Since(c, c') ==> E.Small(m))
            && var us := Gate(c.waitingForSps, PushedCalls(s.shared, calls, c.streamId));
               var frames := E.OnChannel(W.DemuxAll(E.TcpBytes(Since(c, c'))), ch);
               (ReceiveAll(Receiver([], None, c.video.seqno), frames).nals == RT.Nals(us) <==> forall u :: u in us ==> Carriable(u.nal))
  {
    E.ReachablePlaying(s, i);
    hide Quiet, Gate, CallsEvents, PerformAll, FairCalls, Run, Legal, ReceiveAll, E.OnChannel, E.Small, Since;
    CallsAreRun(s, calls, read);
    CallsPush(s.shared, s, calls, s.clients[i].streamId, read);
    E.EndToEndDelivery(s, CallsEvents(s, calls, read), i, ch, read);
  }

  /** And on a track with sockets of its own, from its datagrams. */
  lemma UdpOverCalls(s: Server, calls: seq<Call>, i: nat, read: Reading)
    requires Live(s) && FairCalls(s, calls, read) && i < MAX_CLIENTS && Playing(s.clients[i]) && !s.clients[i].video.interleaved
    requires Quiet(s, CallsEvents(s, calls, read), i, read)
    ensures var c, c' := s.clients[i], PerformAll(s, calls, read).clients[i];
            && c.streamId < STREAM_COUNT && c.log <= c'.log
            && var us := Gate(c.waitingForSps, PushedCalls(s.shared, calls, c.streamId));
               var packets := C.FromSocket(S.UdpLog(Since(c, c')), c.video.rtpFd, c.video.rtpPort);
               (ReceiveAll(Receiver([], None, c.video.seqno), packets).nals == RT.Nals(us) <==> forall u :: u in us ==> Carriable(u.nal))
  {
    E.ReachablePlaying(s, i);
    hide Quiet, Gate, CallsEvents, PerformAll, FairCalls, Run, Legal, ReceiveAll, C.FromSocket, Since;
    CallsAreRun(s, calls, read);
    CallsPush(s.shared, s, calls, s.clients[i].streamId, read);
    C.UdpDelivery(s, CallsEvents(s, calls, read), i, read);
  }

  // ----- from a request within a poll -----

  /** The poll handles a request of client `i` after the events `a` and before the events `b`. */
  predicate Handles(s: Server, input: PollInput, a: seq<Event>, i: nat, ch: Choice, b: seq<Event>, read: Reading)
    requires Shaped(s)
  {
    PollEvents(s, input, read) == a + [Handle(i, ch)] + b
  }

  /** The state in which it is handled. */
  function At(s: Server, a: seq<Event>, read: Reading): (s': Server)
    requires Shaped(s)
    ensures Shaped(s')
  {
    Run(s, a, read)
  }

  /** What happens after it: the rest of the poll, then the calls. */
  function Rest(s: Server, input: PollInput, b: seq<Event>, calls: seq<Call>, read: Reading): seq<Event>
    requires Shaped(s)
  {
    b + CallsEvents(PollServer(s, input, read), calls, read)
  }

  /** A poll and calls are a run up to the request, the request, and a run of the rest. */
  lemma SplitAtRequest(s: Server, input: PollInput, a: seq<Event>, i: nat, ch: Choice, b: seq<Event>, calls: seq<Call>, read: Reading)
    requires Live(s) && FairCalls(s, [CallPoll(input)] + calls, read) && Handles(s, input, a, i, ch, b, read)
    ensures var s1, rest := Step(At(s, a, read), Handle(i, ch), read), Rest(s, input, b, calls, read);
            && I.Inv(At(s, a, read)) && Guarded(At(s, a, read), Handle(i, ch)) && Legal(s1, rest, read)
            && Run(s1, rest, read) == PerformAll(s, [CallPoll(input)] + calls, read)
  {
    hide Handles, Step, Guarded, Honest, FairCalls, CallsEvents, PollEvents, PerformAll, I.Inv;
    var all := [CallPoll(input)] + calls;
    LiveShaped(s);
    CallsAreRun(s, all, read);
    EventsSplit(s, input, a, i, ch, b, calls, read);
    var e, rest := Handle(i, ch), Rest(s, input, b, calls, read);
    RunAppend(s, a, [e] + rest, read);
    RunCons(At(s, a, read), e, rest, read);
    I.RunInv(s, a, read);
  }

  lemma EventsSplit(s: Server, input: PollInput, a: seq<Event>, i: nat, ch: Choice, b: seq<Event>, calls: seq<Call>, read: Reading)
    requires Shaped(s) && Handles(s, input, a, i, ch, b, read)
    ensures CallsEvents(s, [CallPoll(input)] + calls, read) == a + ([Handle(i, ch)] + Rest(s, input, b, calls, read))
  {
    hide PollEvents, PollServer;
    assert ([CallPoll(input)] + calls)[1..] == calls;
    var later := CallsEvents(PollServer(s, input, read), calls, read);
    assert CallsEvents(s, [CallPoll(input)] + calls, read) == PollEvents(s, input, read) + later;
    hide CallsEvents;
    assert a + [Handle(i, ch)] + b + later == a + ([Handle(i, ch)] + (b + later));
  }

  /** Nothing pushed in the rest of the poll. */
  lemma RestPushes(sh: Shared, s: Server, input: PollInput, a: seq<Event>, i: nat, ch: Choice, b: seq<Event>, calls: seq<Call>, stream: nat, read: Reading)
    requires Shaped(s) && stream < |sh.videoTsBase| && Handles(s, input, a, i, ch, b, read)
    ensures Pushed(sh, Rest(s, input, b, calls, read), stream) == PushedCalls(sh, calls, stream)
  {
    hide PollEvents, Pushed, PushedCalls, CallsEvents, PollServer;
    PollPushesNothing(s, input, read);
    var poll := PollEvents(s, input, read);
    forall k | 0 <= k < |b|
      ensures PollEvent(b[k], input)
    {
      assert poll[|a| + 1 + k] == b[k];
    }
    PushedNone(sh, b, stream, input);
    CallsPush(sh, PollServer(s, input, read), calls, stream, read);
    PushedAppend(sh, b, CallsEvents(PollServer(s, input, read), calls, read), stream);
  }

  lemma {:induction false} BaseFixedInRun(s: Server, es: seq<Event>, read: Reading)
    requires Shaped(s)
    ensures Run(s, es, read).shared.videoTsBase == s.shared.videoTsBase
    decreases |es|
  {
    hide Step;
    if es != [] {
      BaseFixed(s, es[0], read);
      BaseFixedInRun(Step(s, es[0], read), es[1..], read);
    }
  }

  /** Delivery after PLAY, over calls: from the moment a poll handles a successful PLAY of a client with an
      active video track, through the rest of that poll and any calls, the client recovers exactly the NAL
      units pushed to its stream from the first SPS on, and none if no SPS is pushed. */
  lemma DeliveryAfterPlayOverCalls(s: Server, input: PollInput, a: seq<Event>, i: nat, ch: Choice, b: seq<Event>, calls: seq<Call>, read: Reading)
    requires Live(s) && FairCalls(s, [CallPoll(input)] + calls, read) && Handles(s, input, a, i, ch, b, read)
    requires var p := At(s, a, read); Plays(p, i, ch, read) && p.clients[i].video.active
    requires i < MAX_CLIENTS && Quiet(Step(At(s, a, read), Handle(i, ch), read), Rest(s, input, b, calls, read), i, read)
    ensures var p := At(s, a, read);
            var c, c' := Step(p, Handle(i, ch), read).clients[i], PerformAll(s, [CallPoll(input)] + calls, read).clients[i];
            && p.clients[i].streamId < STREAM_COUNT && c.log <= c'.log
            && var pushed := PushedCalls(s.shared, calls, p.clients[i].streamId);
               && (Recovered(c, c') == RT.Nals(Gate(true, pushed)) <==> forall u :: u in Gate(true, pushed) ==> Carriable(u.nal))
               && ((forall u :: u in pushed ==> NalType(u.nal) != NAL_SPS) ==> Recovered(c, c') == [])
  {
    hide Handles, FairCalls, PerformAll, Quiet, Run, Rest, Plays, Pushed, PushedCalls, Recovered, Gate, Legal;
    var p, rest := At(s, a, read), Rest(s, input, b, calls, read);
    SplitAtRequest(s, input, a, i, ch, b, calls, read);
    E.PlayKeepsConnection(p, i, ch, read);
    E.DeliveryAfterPlay(p, i, ch, rest, read);
    var s1, stream := Step(p, Handle(i, ch), read), p.clients[i].streamId;
    BaseFixedInRun(s, a, read);
    BaseFixed(p, Handle(i, ch), read);
    hide Step;
    PushedSameBase(s.shared, s1.shared, rest, stream);
    RestPushes(s.shared, s, input, a, i, ch, b, calls, stream, read);
  }

  // ----- numbering and pacing -----

  /** RTP identity over calls: the k-th packet of a track since the poll that handled its successful SETUP
      has sequence number k modulo 65536 and the SSRC drawn then. */
  lemma NumberedOverCalls(s: Server, input: PollInput, a: seq<Event>, i: nat, ch: Choice, b: seq<Event>, calls: seq<Call>, t: TrackId, read: Reading)
    requires Live(s) && FairCalls(s, [CallPoll(input)] + calls, read) && Handles(s, input, a, i, ch, b, read)
    requires i < MAX_CLIENTS && T.SetsUp(At(s, a, read), i, ch, t, read)
    requires T.Kept(Step(At(s, a, read), Handle(i, ch), read), Rest(s, input, b, calls, read), i, t, read)
    ensures var c, c' := Step(At(s, a, read), Handle(i, ch), read).clients[i], PerformAll(s, [CallPoll(input)] + calls, read).clients[i];
            && c.log <= c'.log
            && forall k :: 0 <= k < |Packets(Since(c, c'), t)| ==>
                 Packets(Since(c, c'), t)[k].seqno as int == k % 0x1_0000 && Packets(Since(c, c'), t)[k].ssrc == ch.ssrc
  {
    hide Handles, FairCalls, PerformAll, T.Kept, Run, Rest, Step, T.SetsUp, Legal, Packets, Since;
    SplitAtRequest(s, input, a, i, ch, b, calls, read);
    T.NumberedFromSetup(At(s, a, read), i, ch, t, Rest(s, input, b, calls, read), read);
  }

  /** Pacing over calls: from the poll that handles a successful PLAY to the next PLAY or reset the schedule
      is the time of the PLAY plus a second for each metadata packet sent since. */
  lemma PacedOverCalls(s: Server, input: PollInput, a: seq<Event>, i: nat, ch: Choice, b: seq<Event>, calls: seq<Call>, read: Reading)
    requires Live(s) && FairCalls(s, [CallPoll(input)] + calls, read) && Handles(s, input, a, i, ch, b, read)
    requires i < MAX_CLIENTS && Plays(At(s, a, read), i, ch, read)
    requires T.Unrestarted(Step(At(s, a, read), Handle(i, ch), read), Rest(s, input, b, calls, read), i, read)
    ensures var c, c' := Step(At(s, a, read), Handle(i, ch), read).clients[i], PerformAll(s, [CallPoll(input)] + calls, read).clients[i];
            && c.log <= c'.log
            && c'.nextMetadataUs == ch.now + METADATA_INTERVAL_US * |Packets(Since(c, c'), Metadata)|
  {
    hide Handles, FairCalls, PerformAll, T.Unrestarted, Run, Rest, Step, Plays, Legal, Packets, Since;
    SplitAtRequest(s, input, a, i, ch, b, calls, read);
    T.PacedFromPlay(At(s, a, read), i, ch, Rest(s, input, b, calls, read), read);
  }

  /** A poll without a PLAY in it sends metadata exactly when the schedule before the poll has come due. */
  lemma PollPunctual(s: Server, poll: PollInput, i: nat, read: Reading)
    requires Live(s) && Fair(s, poll, read) && Connected(s, i) && i < MAX_CLIENTS && !poll.client(i).received.Gone?
    requires T.Unrestarted(s, PollEvents(s, poll, read), i, read)
    ensures var c, c' := s.clients[i], PollServer(s, poll, read).clients[i];
            && c.log <= c'.log
            && |Packets(Since(c, c'), Metadata)| ==
               if c'.playing && c'.metadata.active && poll.now >= c.nextMetadataUs then 1 else 0
  {
    hide Live, Fair, T.Unrestarted, PollEvents, PollServer, PollClient, Packets, Since, Drain, FairClient, Legal, Run;
    LiveShaped(s);
    PollIsRun(s, poll, read);
    T.RunPaced(s, PollEvents(s, poll, read), i, read);
    var open := PollSlot(s, poll, i, read);
    OneMetadataPerPoll(s.shared, s.clients[i], open, poll.now, poll.client(i), read);
  }

  /** Metadata is never late by more than the polls are: k packets after a PLAY, a poll sends packet k exactly
      when its time is k seconds after the PLAY or later and the client still plays its metadata track. */
  lemma PunctualOverCalls(s: Server, input: PollInput, a: seq<Event>, i: nat, ch: Choice, b: seq<Event>, calls: seq<Call>,
                          poll: PollInput, read: Reading)
    requires Live(s) && FairCalls(s, [CallPoll(input)] + calls, read) && Handles(s, input, a, i, ch, b, read)
    requires i < MAX_CLIENTS && Plays(At(s, a, read), i, ch, read)
    requires T.Unrestarted(Step(At(s, a, read), Handle(i, ch), read), Rest(s, input, b, calls, read), i, read)
    requires var s' := PerformAll(s, [CallPoll(input)] + calls, read);
             Fair(s', poll, read) && !poll.client(i).received.Gone? && T.Unrestarted(s', PollEvents(s', poll, read), i, read)
    ensures var s' := PerformAll(s, [CallPoll(input)] + calls, read);
            var c, d, d' := Step(At(s, a, read), Handle(i, ch), read).clients[i], s'.clients[i], PollServer(s', poll, read).clients[i];
            && c.log <= d.log <= d'.log
            && var k := |Packets(Since(c, d), Metadata)|;
               |Packets(Since(d, d'), Metadata)| ==
               if d'.playing && d'.metadata.active && poll.now >= ch.now + 1000000 * k then 1 else 0
  {
    hide Handles, FairCalls, Fair, PerformAll, T.Unrestarted, Run, Rest, Step, Plays, Legal, Packets, Since, Live, PollEvents, PollServer;
    PacedOverCalls(s, input, a, i, ch, b, calls, read);
    SplitAtRequest(s, input, a, i, ch, b, calls, read);
    LiveShaped(s);
    T.PlayConnects(At(s, a, read), i, ch, read);
    T.RunConnected(Step(At(s, a, read), Handle(i, ch), read), Rest(s, input, b, calls, read), i, read);
    CallsAreRun(s, [CallPoll(input)] + calls, read);
    PollPunctual(PerformAll(s, [CallPoll(input)] + calls, read), poll, i, read);
  }

  /** Metadata over calls: packet k after a PLAY, counting from 0, is never sent before the PLAY plus k seconds. */
  lemma NeverEarlyOverCalls(s: Server, input: PollInput, a: seq<Event>, i: nat, ch: Choice, b: seq<Event>, calls: seq<Call>,
                            x: seq<Event>, now: nat, clock: u64, xml: seq<byte>, y: seq<Event>, read: Reading)
    requires Live(s) && FairCalls(s, [CallPoll(input)] + calls, read) && Handles(s, input, a, i, ch, b, read)
    requires i < MAX_CLIENTS && Plays(At(s, a, read), i, ch, read)
    requires Rest(s, input, b, calls, read) == x + [SendMetadata(i, now, clock, xml)] + y
    requires T.Unrestarted(Step(At(s, a, read), Handle(i, ch), read), x, i, read)
    ensures var s1 := Step(At(s, a, read), Handle(i, ch), read);
            var c, c' := s1.clients[i], Run(s1, x, read).clients[i];
            c.log <= c'.log && now >= ch.now + METADATA_INTERVAL_US * |Packets(Since(c, c'), Metadata)|
  {
    hide Handles, FairCalls, PerformAll, T.Unrestarted, Run, Rest, Step, Plays, Legal, Packets, Since;
    SplitAtRequest(s, input, a, i, ch, b, calls, read);
    var s1, e := Step(At(s, a, read), Handle(i, ch), read), SendMetadata(i, now, clock, xml);
    RunAppend(s1, x + [e], y, read);
    T.NeverEarlyAfterPlay(At(s, a, read), i, ch, x, now, clock, xml, read);
  }
}

/** Request framing over whole sequences of calls does not depend on how TCP chunked the stream. */
module Chunking {
  import opened Bytes
  import opened Framing
  import opened Session
  import I = Invariants
  import R = Requests
  import opened Poll
  import opened PollRuns

  /** Nothing discarded, no complete request waiting, and the books balance. */
  predicate Clean(c: Client, read: Reading) {
    R.Balanced(c, read) && c.inbox.discards == 0 && NextRequest(c.inbox.rx).None?
  }

  /** Not a DESCRIBE that might have to wait. */
  predicate Answerable(sh: Shared, r: Request) {
    r.verb == Describe ==> r.stream >= STREAM_COUNT || Cached(sh, r.stream)
  }

  predicate AllAnswerable(sh: Shared, read: Reading, s: seq<byte>) {
    forall req :: req in Cut(s) ==> Answerable(sh, read(req))
  }

  // ----- one poll of one client -----

  lemma {:induction false} DrainKeepsBooks(sh: Shared, c: Client, open: set<int>, read: Reading, choices: nat -> Choice, k: nat)
    requires R.Balanced(c, read)
    ensures var c' := Drain(sh, c, open, read, choices, k).0;
            R.Balanced(c', read) && c'.inbox.discards == c.inbox.discards
    decreases |c.inbox.rx|
  {
    hide R.Balanced, HandleRequest;
    var n := NextRequest(c.inbox.rx);
    if n.Some? && HandleRequest(sh, c, open, read(n.value), choices(k)).Some? {
      R.ConsumeBalanced(sh, c, open, read, choices(k));
      I.RequestKeepsBuffer(sh, c, open, read(n.value), choices(k));
      var (h, open1) := HandleRequest(sh, c, open, read(n.value), choices(k)).value;
      DrainKeepsBooks(sh, h.(inbox := Take(c.inbox, n.value)), open1, read, choices, k + 1);
    }
  }

  /** A complete request in a NUL-free stream is one of those it is cut into. */
  lemma WaitingIsCut(c: Client, read: Reading)
    requires R.Balanced(c, read) && c.inbox.discards == 0 && 0 !in c.inbox.received && NextRequest(c.inbox.rx).Some?
    ensures NextRequest(c.inbox.rx).value in Cut(c.inbox.received)
  {
    assert forall b :: b in c.inbox.rx ==> b in Flatten(c.inbox.handled) + c.inbox.rx;
    hide NextRequest, Cut, Rest;
    R.TakeCut(c.inbox.rx, NextRequest(c.inbox.rx).value);
  }

  lemma TakeInBalanced(c: Client, r: Received, read: Reading)
    requires R.Balanced(c, read) && (r.Data? ==> |r.octets| <= RX_LIMIT - |c.inbox.rx|)
    ensures R.Balanced(TakeIn(c, r), read) && TakeIn(c, r).inbox.discards == c.inbox.discards
  {
    if r.Data? {
      R.RecvFramed(c, r.octets);
    }
  }

  lemma TickBalanced(sh: Shared, c: Client, now: nat, clock: u64, xml: seq<byte>, read: Reading)
    requires R.Balanced(c, read)
    ensures R.Balanced(Tick(sh, c, now, clock, xml), read) && Tick(sh, c, now, clock, xml).inbox == c.inbox
  {
    if MetadataDue(c, now) {
      R.MetadataBalanced(sh, c, clock, xml, read);
    }
    hide R.Balanced;
  }

  /** What `TakeIn` makes of the octets received. */
  function After(c: Client, r: Received): seq<byte> {
    TakeIn(c, r).inbox.received
  }

  /** A poll of a clean client whose stream fits leaves it clean, with the requests handled so far being
      the cut of everything received so far. */
  lemma PollClean(sh: Shared, c: Client, open: set<int>, now: nat, input: ClientInput, read: Reading)
    requires c.tcpFd >= 0 && !input.received.Gone? && Clean(c, read) && FairClient(sh, c, open, input, read)
    requires var s := After(c, input.received); Fits(s) && 0 !in s && AllAnswerable(sh, read, s)
    ensures var c', s := PollClient(sh, c, open, now, input, read).0, After(c, input.received);
            && Clean(c', read) && c'.tcpFd == c.tcpFd
            && c'.inbox.received == s && c'.inbox.handled == Cut(s) && c'.inbox.rx == Rest(s) && |c'.inbox.rx| < RX_LIMIT
  {
    TakeInBalanced(c, input.received, read);
    hide R.Balanced, Fits, Drain, TakeIn, Tick;
    var c1 := TakeIn(c, input.received);
    DrainKeepsBooks(sh, c1, open, read, input.choices, 0);
    DrainGrows(sh, c1, open, read, input.choices, 0);
    var c2 := Drain(sh, c1, open, read, input.choices, 0).0;
    NoneLeft(sh, c1, open, input, read);
    R.DiscardExactly(c2, read);
    TickBalanced(sh, c2, now, input.clock, input.xml, read);
    SameFd(sh, c, open, now, input, read);
  }

  lemma SameFd(sh: Shared, c: Client, open: set<int>, now: nat, input: ClientInput, read: Reading)
    requires c.tcpFd >= 0 && !input.received.Gone?
    ensures PollClient(sh, c, open, now, input, read).0.tcpFd == c.tcpFd
  {
    PollLeavesRoom(sh, c, open, now, input, read);
    hide PollClient;
  }

  lemma NoneLeft(sh: Shared, c: Client, open: set<int>, input: ClientInput, read: Reading)
    requires R.Balanced(c, read) && c.inbox.discards == 0 && 0 !in c.inbox.received && AllAnswerable(sh, read, c.inbox.received)
    ensures NextRequest(Drain(sh, c, open, read, input.choices, 0).0.inbox.rx).None?
  {
    hide R.Balanced, Drain, NextRequest, Cut;
    var c' := Drain(sh, c, open, read, input.choices, 0).0;
    DrainStops(sh, c, open, read, input.choices, 0);
    DrainKeepsBooks(sh, c, open, read, input.choices, 0);
    DrainGrows(sh, c, open, read, input.choices, 0);
    if NextRequest(c'.inbox.rx).Some? {
      WaitingIsCut(c', read);
    }
  }

  // ----- one call -----

  /** Slot `i` in a poll is polled once, with what the earlier slots left of the descriptors. */
  lemma {:induction false} PolledFrom(s: Server, j: nat, i: nat, input: PollInput, read: Reading) returns (open: set<int>)
    requires Shaped(s) && j <= i < MAX_CLIENTS && FairFrom(s, j, input, read)
    ensures PollFrom(s, j, input, read).shared == s.shared
    ensures PollFrom(s, j, input, read).clients[i] == PollClient(s.shared, s.clients[i], open, input.now, input.client(i), read).0
    ensures FairClient(s.shared, s.clients[i], open, input.client(i), read)
    decreases MAX_CLIENTS - j
  {
    hide PollClient, FairClient;
    var (c, open1) := PollClient(s.shared, s.clients[j], s.open, input.now, input.client(j), read);
    var s1 := Put(s, j, c).(open := open1);
    if j == i {
      open := s.open;
      LaterSlots(s1, j + 1, i, input, read);
    } else {
      open := PolledFrom(s1, j + 1, i, input, read);
    }
  }

  lemma {:induction false} LaterSlots(s: Server, j: nat, i: nat, input: PollInput, read: Reading)
    requires Shaped(s) && i < j <= MAX_CLIENTS
    ensures PollFrom(s, j, input, read).clients[i] == s.clients[i] && PollFrom(s, j, input, read).shared == s.shared
    decreases MAX_CLIENTS - j
  {
    hide PollClient;
    if j < MAX_CLIENTS {
      var (c, open) := PollClient(s.shared, s.clients[j], s.open, input.now, input.client(j), read);
      LaterSlots(Put(s, j, c).(open := open), j + 1, i, input, read);
    }
  }

  /** Accepting leaves connected slots and the shared state alone. */
  lemma AcceptingKeeps(s: Server, connection: Option<(int, bool)>, i: nat)
    requires Shaped(s) && Connected(s, i)
    ensures Shaped(Accepting(s, connection)) && Accepting(s, connection).clients[i] == s.clients[i]
    ensures Accepting(s, connection).shared == s.shared
  {
  }

  lemma PollSlot(s: Server, input: PollInput, i: nat, read: Reading) returns (open: set<int>)
    requires Shaped(s) && Connected(s, i) && Fair(s, input, read)
    ensures PollServer(s, input, read).clients[i] == PollClient(s.shared, s.clients[i], open, input.now, input.client(i), read).0
    ensures FairClient(s.shared, s.clients[i], open, input.client(i), read) && PollServer(s, input, read).shared == s.shared
  {
    hide PollClient, FairClient, PollFrom, FairFrom, Accepting;
    AcceptingKeeps(s, input.connection, i);
    open := PolledFrom(Accepting(s, input.connection), 0, i, input, read);
  }

  /** What a call delivers to client `i`, which it does not disconnect. */
  function Delivered(call: Call, i: nat): Received {
    if call.CallPoll? then call.input.client(i).received else Nothing
  }

  lemma CallReceives(s: Server, call: Call, i: nat, read: Reading)
    requires Shaped(s) && Connected(s, i) && (call.CallPoll? ==> Fair(s, call.input, read)) && !Delivered(call, i).Gone?
    ensures var s' := Perform(s, call, read);
            Connected(s', i) && s'.clients[i].inbox.received == After(s.clients[i], Delivered(call, i))
  {
    match call
    case CallPoll(input) =>
      var open := PollSlot(s, input, i, read);
      PollLeavesRoom(s.shared, s.clients[i], open, input.now, input.client(i), read);
      hide PollClient, PollServer, Fair;
    case CallPush(stream, nal, pts, last) =>
      PushKeepsInbox(s, stream, nal, pts, last, i, read);
    case CallEnable(stream) =>
    case CallRequireAuth =>
  }

  lemma PushKeepsInbox(s: Server, stream: int, nal: seq<byte>, pts: u64, last: bool, i: nat, read: Reading)
    requires Shaped(s) && i < MAX_CLIENTS
    ensures var c, c' := s.clients[i], PushNal(s, stream, nal, pts, last).clients[i];
            && c'.tcpFd == c.tcpFd && c'.inbox == c.inbox && (R.Balanced(c, read) ==> R.Balanced(c', read))
  {
    hide PushTo, R.Balanced, Ticks;
    if 0 <= stream < STREAM_COUNT && nal != [] {
      var ts := Ticks(pts, s.shared.videoTsBase[stream]);
      I.PushKeeps(s.clients[i], stream, nal, ts, last);
      if R.Balanced(s.clients[i], read) {
        R.PushBalanced(s.clients[i], stream, nal, ts, last, read);
      }
    }
  }

  lemma CallClean(s: Server, call: Call, i: nat, read: Reading)
    requires Shaped(s) && Connected(s, i) && (call.CallPoll? ==> Fair(s, call.input, read)) && !Delivered(call, i).Gone?
    requires Clean(s.clients[i], read)
    requires var r := After(s.clients[i], Delivered(call, i)); Fits(r) && 0 !in r && AllAnswerable(s.shared, read, r)
    ensures Clean(Perform(s, call, read).clients[i], read)
  {
    hide R.Balanced, Fits, NextRequest, AllAnswerable;
    match call
    case CallPoll(input) =>
      var open := PollSlot(s, input, i, read);
      PollClean(s.shared, s.clients[i], open, input.now, input.client(i), read);
      hide PollClient, PollServer, Fair, FairClient;
    case CallPush(stream, nal, pts, last) =>
      PushKeepsInbox(s, stream, nal, pts, last, i, read);
    case CallEnable(stream) =>
    case CallRequireAuth =>
  }

  // ----- any calls -----

  /** Client `i` is never disconnected. */
  predicate Stays(calls: seq<Call>, i: nat) {
    forall k :: 0 <= k < |calls| ==> !Delivered(calls[k], i).Gone?
  }

  lemma StaysRest(calls: seq<Call>, i: nat)
    requires calls != [] && Stays(calls, i)
    ensures !Delivered(calls[0], i).Gone? && Stays(calls[1..], i)
  {
    forall k | 0 <= k < |calls[1..]|
      ensures !Delivered(calls[1..][k], i).Gone?
    {
      assert calls[1..][k] == calls[k + 1];
    }
  }

  lemma {:induction false} CallsReceive(s: Server, calls: seq<Call>, i: nat, read: Reading)
    requires Shaped(s) && Connected(s, i) && FairCalls(s, calls, read) && Stays(calls, i)
    ensures s.clients[i].inbox.received <= PerformAll(s, calls, read).clients[i].inbox.received
    ensures Connected(PerformAll(s, calls, read), i)
    decreases |calls|
  {
    hide Stays, Perform, Fair;
    if calls != [] {
      StaysRest(calls, i);
      FirstCall(s, calls, read);
      CallReceives(s, calls[0], i, read);
      CallsReceive(Perform(s, calls[0], read), calls[1..], i, read);
    }
  }

  lemma AnswerablePrefix(sh: Shared, read: Reading, a: seq<byte>, s: seq<byte>)
    requires a <= s && AllAnswerable(sh, read, s)
    ensures AllAnswerable(sh, read, a)
  {
    assert a + s[|a|..] == s;
    CutAppend(a, s[|a|..]);
    hide Cut, Answerable;
  }

  /** Cached parameter sets stay cached, so what could be answered still can. */
  lemma AnswerableLater(s: Server, call: Call, read: Reading, t: seq<byte>)
    requires Live(s) && (call.CallPoll? ==> Fair(s, call.input, read)) && AllAnswerable(s.shared, read, t)
    ensures AllAnswerable(Perform(s, call, read).shared, read, t)
  {
    hide Fair, Perform, Run, Legal, I.Inv, Cut, Cached, CallEvents;
    LiveShaped(s);
    CallIsRun(s, call, read);
    var es := CallEvents(s, call, read);
    forall st: nat | Cached(s.shared, st)
      ensures Cached(Run(s, es, read).shared, st)
    {
      R.RunCached(s, es, st, read);
    }
  }

  lemma LiveShaped(s: Server)
    requires Live(s)
    ensures Shaped(s)
  {
  }

  /** Framing: from a clean connection, over any calls that do not disconnect it, the requests handled are
      exactly the received stream cut at each CRLFCRLF, nothing is discarded and fewer than 4095 octets
      wait - if the stream is NUL-free, its requests fit the buffer and none is a DESCRIBE of a stream
      without cached parameter sets. How the octets were chunked, and what else happened, is irrelevant. */
  lemma {:induction false} ChunkingIrrelevant(s: Server, calls: seq<Call>, i: nat, read: Reading)
    requires Live(s) && Connected(s, i) && FairCalls(s, calls, read) && Stays(calls, i) && Clean(s.clients[i], read)
    requires var t := PerformAll(s, calls, read).clients[i].inbox.received; Fits(t) && 0 !in t && AllAnswerable(s.shared, read, t)
    ensures var c := PerformAll(s, calls, read).clients[i];
            && c.inbox.handled == Cut(c.inbox.received) && c.inbox.rx == Rest(c.inbox.received)
            && c.inbox.discards == 0 && |c.inbox.rx| < RX_LIMIT
    decreases |calls|
  {
    hide Stays, Perform, Fair, Fits, Clean, AllAnswerable, CallEvents, Run, Legal;
    if calls == [] {
      CleanIsCut(s.clients[i], read);
    } else {
      var t := PerformAll(s, calls, read).clients[i].inbox.received;
      StaysRest(calls, i);
      FirstCall(s, calls, read);
      CallReceives(s, calls[0], i, read);
      var s1 := Perform(s, calls[0], read);
      CallsReceive(s1, calls[1..], i, read);
      R.FitsShorter(s1.clients[i].inbox.received, t);
      AnswerablePrefix(s.shared, read, s1.clients[i].inbox.received, t);
      CallClean(s, calls[0], i, read);
      AnswerableLater(s, calls[0], read, t);
      CallIsRun(s, calls[0], read);
      ChunkingIrrelevant(s1, calls[1..], i, read);
    }
  }

  lemma CleanIsCut(c: Client, read: Reading)
    requires Clean(c, read) && Fits(c.inbox.received) && 0 !in c.inbox.received
    ensures c.inbox.handled == Cut(c.inbox.received) && c.inbox.rx == Rest(c.inbox.received)
    ensures c.inbox.discards == 0 && |c.inbox.rx| < RX_LIMIT
  {
    hide R.Balanced, Fits;
    R.DiscardExactly(c, read);
  }

  // ----- from the accepting poll on -----

  /** A connection just accepted is clean. */
  lemma NewIsClean(fd: int, loopback: bool, read: Reading)
    ensures Clean(FREE_SLOT.(tcpFd := fd, loopback := loopback), read)
  {
    R.FreeBalanced(FREE_SLOT, read);
  }

  /** The accepting poll, less the accepting. */
  function Accepted(input: PollInput): PollInput {
    input.(connection := None)
  }

  lemma {:induction false} SameFrom(s: Server, j: nat, input: PollInput, read: Reading)
    requires Shaped(s) && j <= MAX_CLIENTS
    ensures PollFrom(s, j, Accepted(input), read) == PollFrom(s, j, input, read)
    ensures FairFrom(s, j, Accepted(input), read) == FairFrom(s, j, input, read)
    decreases MAX_CLIENTS - j
  {
    hide PollClient, FairClient;
    if j < MAX_CLIENTS {
      var (c, open) := PollClient(s.shared, s.clients[j], s.open, input.now, input.client(j), read);
      SameFrom(Put(s, j, c).(open := open), j + 1, input, read);
    }
  }

  /** A poll accepts first and then does what it would have done with the connection already there. */
  lemma AcceptFirst(s: Server, input: PollInput, calls: seq<Call>, read: Reading)
    requires Live(s) && FairCalls(s, [CallPoll(input)] + calls, read)
    ensures var s1 := Accepting(s, input.connection);
            && Live(s1) && s1.shared == s.shared && FairCalls(s1, [CallPoll(Accepted(input))] + calls, read)
            && PerformAll(s1, [CallPoll(Accepted(input))] + calls, read) == PerformAll(s, [CallPoll(input)] + calls, read)
  {
    hide PollFrom, FairFrom, I.Inv, AcceptInto;
    assert ([CallPoll(input)] + calls)[1..] == calls;
    assert ([CallPoll(Accepted(input))] + calls)[1..] == calls;
    LiveShaped(s);
    AcceptingIsLive(s, input, read);
    SameFrom(Accepting(s, input.connection), 0, input, read);
  }

  lemma AcceptingIsLive(s: Server, input: PollInput, read: Reading)
    requires Live(s) && Fair(s, input, read)
    ensures Live(Accepting(s, input.connection)) && Accepting(s, input.connection).shared == s.shared
  {
    hide FairFrom;
    match input.connection
    case None =>
    case Some((fd, loopback)) => ListenerStays(s, Accept(fd, loopback), read);
  }

  /** Framing from the start of a connection: the requests handled on a connection that a poll accepted are
      exactly its stream cut at each CRLFCRLF, under the same conditions and none on its state. */
  lemma ChunkingFromAccept(s: Server, input: PollInput, calls: seq<Call>, i: nat, read: Reading)
    requires Live(s) && FairCalls(s, [CallPoll(input)] + calls, read) && input.connection.Some? && FreeSlot(s.clients) == Some(i)
    requires Stays([CallPoll(Accepted(input))] + calls, i)
    requires var t := PerformAll(s, [CallPoll(input)] + calls, read).clients[i].inbox.received;
             Fits(t) && 0 !in t && AllAnswerable(s.shared, read, t)
    ensures var c := PerformAll(s, [CallPoll(input)] + calls, read).clients[i];
            && c.inbox.handled == Cut(c.inbox.received) && c.inbox.rx == Rest(c.inbox.received)
            && c.inbox.discards == 0 && |c.inbox.rx| < RX_LIMIT
  {
    hide FairCalls, PerformAll, Stays, Fits, AllAnswerable, Clean, I.Inv, Fair;
    LiveShaped(s);
    FairFd(s, input, calls, read);
    AcceptFirst(s, input, calls, read);
    NewIsClean(input.connection.value.0, input.connection.value.1, read);
    ChunkingIrrelevant(Accepting(s, input.connection), [CallPoll(Accepted(input))] + calls, i, read);
  }

  lemma FairFd(s: Server, input: PollInput, calls: seq<Call>, read: Reading)
    requires Shaped(s) && FairCalls(s, [CallPoll(input)] + calls, read) && input.connection.Some?
    ensures input.connection.value.0 >= 0
  {
    hide FairFrom, Perform;
  }
}

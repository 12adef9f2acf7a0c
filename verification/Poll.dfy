/** `rtsp_server_poll` as one function, and the run of events each call amounts to. */
module Poll {
  import opened Bytes
  import opened Rtp
  import opened Framing
  import opened Session
  import I = Invariants

  /** What `recv` returned: no data yet, end of stream or an error, or octets. */
  datatype Received = Nothing | Gone | Data(octets: seq<byte>)

  /** The environment of one client during a poll; the k-th request handled gets the k-th choice. */
  datatype ClientInput = ClientInput(received: Received, choices: nat -> Choice, clock: u64, xml: seq<byte>)

  datatype PollInput = PollInput(connection: Option<(int, bool)>, now: nat, client: nat -> ClientInput)

  /** `drain_requests`: until no request is complete or one has to wait. */
  function Drain(sh: Shared, c: Client, open: set<int>, read: Reading, choices: nat -> Choice, k: nat): (Client, set<int>)
    decreases |c.inbox.rx|
  {
    match NextRequest(c.inbox.rx)
    case None => (c, open)
    case Some(req) =>
      match HandleRequest(sh, c, open, read(req), choices(k))
      case None => (c, open)
      case Some((c', open')) => Drain(sh, c'.(inbox := Take(c.inbox, req)), open', read, choices, k + 1)
  }

  function TakeIn(c: Client, r: Received): Client {
    if r.Data? then Append(c, r.octets) else c
  }

  function Trim(c: Client): Client {
    if |c.inbox.rx| >= RX_LIMIT then Overflow(c) else c
  }

  function Tick(sh: Shared, c: Client, now: nat, clock: u64, xml: seq<byte>): Client {
    if MetadataDue(c, now) then MetadataPacket(sh, c, clock, xml) else c
  }

  /** The body of the client loop. */
  function PollClient(sh: Shared, c: Client, open: set<int>, now: nat, input: ClientInput, read: Reading): (Client, set<int>) {
    if c.tcpFd < 0 then (c, open)
    else if input.received.Gone? then (FREE_SLOT, open - ClientFds(c))
    else
      var (c', open') := Drain(sh, TakeIn(c, input.received), open, read, input.choices, 0);
      (Tick(sh, Trim(c'), now, input.clock, input.xml), open')
  }

  function PollFrom(s: Server, i: nat, input: PollInput, read: Reading): (s': Server)
    requires Shaped(s) && i <= MAX_CLIENTS
    ensures Shaped(s')
    decreases MAX_CLIENTS - i
  {
    if i == MAX_CLIENTS then s
    else
      var (c, open) := PollClient(s.shared, s.clients[i], s.open, input.now, input.client(i), read);
      PollFrom(Put(s, i, c).(open := open), i + 1, input, read)
  }

  function Accepting(s: Server, connection: Option<(int, bool)>): (s': Server)
    requires Shaped(s)
    ensures Shaped(s')
  {
    match connection
    case None => s
    case Some((fd, loopback)) => AcceptInto(s, fd, loopback)
  }

  function PollServer(s: Server, input: PollInput, read: Reading): (s': Server)
    requires Shaped(s)
    ensures Shaped(s')
  {
    PollFrom(Accepting(s, input.connection), 0, input, read)
  }

  // ----- what the kernel promises -----

  predicate FairDrain(sh: Shared, c: Client, open: set<int>, read: Reading, choices: nat -> Choice, k: nat)
    decreases |c.inbox.rx|
  {
    && FreshChoice(c, open, read, choices(k))
    && match NextRequest(c.inbox.rx)
       case None => true
       case Some(req) =>
         match HandleRequest(sh, c, open, read(req), choices(k))
         case None => true
         case Some((c', open')) => FairDrain(sh, c'.(inbox := Take(c.inbox, req)), open', read, choices, k + 1)
  }

  predicate FairClient(sh: Shared, c: Client, open: set<int>, input: ClientInput, read: Reading) {
    c.tcpFd >= 0 && !input.received.Gone? ==>
      && (input.received.Data? ==> 1 <= |input.received.octets| <= RX_LIMIT - |c.inbox.rx|)
      && |input.xml| <= MAX_PAYLOAD
      && FairDrain(sh, TakeIn(c, input.received), open, read, input.choices, 0)
  }

  predicate FairFrom(s: Server, i: nat, input: PollInput, read: Reading)
    requires Shaped(s) && i <= MAX_CLIENTS
    decreases MAX_CLIENTS - i
  {
    i == MAX_CLIENTS ||
    (&& FairClient(s.shared, s.clients[i], s.open, input.client(i), read)
     && var (c, open) := PollClient(s.shared, s.clients[i], s.open, input.now, input.client(i), read);
        FairFrom(Put(s, i, c).(open := open), i + 1, input, read))
  }

  predicate Fair(s: Server, input: PollInput, read: Reading)
    requires Shaped(s)
  {
    && (input.connection.Some? ==> input.connection.value.0 >= 0 && input.connection.value.0 !in s.open)
    && FairFrom(Accepting(s, input.connection), 0, input, read)
  }

  // ----- the events of a poll -----

  /** The requests consumed, one event each. */
  function DrainEvents(sh: Shared, c: Client, open: set<int>, read: Reading, i: nat, choices: nat -> Choice, k: nat): seq<Event>
    decreases |c.inbox.rx|
  {
    match NextRequest(c.inbox.rx)
    case None => []
    case Some(req) =>
      match HandleRequest(sh, c, open, read(req), choices(k))
      case None => []
      case Some((c', open')) =>
        [Handle(i, choices(k))] + DrainEvents(sh, c'.(inbox := Take(c.inbox, req)), open', read, i, choices, k + 1)
  }

  function RecvEvents(i: nat, r: Received): seq<Event> {
    if r.Data? then [Session.Recv(i, r.octets)] else []
  }

  function TrimEvents(i: nat, c: Client): seq<Event> {
    if |c.inbox.rx| >= RX_LIMIT then [Discard(i)] else []
  }

  function TickEvents(i: nat, c: Client, now: nat, clock: u64, xml: seq<byte>): seq<Event> {
    if MetadataDue(c, now) then [SendMetadata(i, now, clock, xml)] else []
  }

  /** What is received, the requests consumed, an overflow if there is one and metadata if it is due. */
  function ClientEvents(sh: Shared, c: Client, open: set<int>, i: nat, now: nat, input: ClientInput, read: Reading): seq<Event> {
    if c.tcpFd < 0 then []
    else if input.received.Gone? then [Hangup(i)]
    else
      var c1 := TakeIn(c, input.received);
      var c2 := Drain(sh, c1, open, read, input.choices, 0).0;
      RecvEvents(i, input.received) + DrainEvents(sh, c1, open, read, i, input.choices, 0)
      + (TrimEvents(i, c2) + TickEvents(i, Trim(c2), now, input.clock, input.xml))
  }

  function EventsFrom(s: Server, i: nat, input: PollInput, read: Reading): seq<Event>
    requires Shaped(s) && i <= MAX_CLIENTS
    decreases MAX_CLIENTS - i
  {
    if i == MAX_CLIENTS then []
    else
      var (c, open) := PollClient(s.shared, s.clients[i], s.open, input.now, input.client(i), read);
      ClientEvents(s.shared, s.clients[i], s.open, i, input.now, input.client(i), read)
      + EventsFrom(Put(s, i, c).(open := open), i + 1, input, read)
  }

  function AcceptEvents(connection: Option<(int, bool)>): seq<Event> {
    match connection
    case None => []
    case Some((fd, loopback)) => [Accept(fd, loopback)]
  }

  function PollEvents(s: Server, input: PollInput, read: Reading): seq<Event>
    requires Shaped(s)
  {
    AcceptEvents(input.connection) + EventsFrom(Accepting(s, input.connection), 0, input, read)
  }

  // ----- a poll is a run -----

  lemma RunOne(s: Server, e: Event, read: Reading)
    requires Shaped(s)
    ensures Run(s, [e], read) == Step(s, e, read)
    ensures Legal(s, [e], read) <==> Guarded(s, e) && Honest(s, e, read)
  {
    assert [e][1..] == [];
  }

  lemma RunCons(s: Server, e: Event, es: seq<Event>, read: Reading)
    requires Shaped(s)
    ensures Run(s, [e] + es, read) == Run(Step(s, e, read), es, read)
    ensures Legal(s, [e] + es, read) <==> Guarded(s, e) && Honest(s, e, read) && Legal(Step(s, e, read), es, read)
  {
    assert ([e] + es)[1..] == es;
  }

  /** Nothing but `rtsp_server_close` closes the listener. */
  lemma ListenerStays(s: Server, e: Event, read: Reading)
    requires I.Inv(s) && Guarded(s, e) && Honest(s, e, read) && e != Shutdown
    ensures I.Inv(Step(s, e, read)) && s.listenFd in Step(s, e, read).open && Step(s, e, read).listenFd == s.listenFd
  {
    I.StepInv(s, e, read);
    hide I.SessionOk;
    if Slot(e).Some? {
      var i := Slot(e).value;
      assert forall fd :: I.Owns(s.clients, i, fd) <==> fd in ClientFds(s.clients[i]);
      I.SlotStep(s, e, i, read);
      hide StepClient;
    } else if e.Accept? && FreeSlot(s.clients).Some? {
      assert !I.Owns(s.clients, FreeSlot(s.clients).value, s.listenFd);
    }
  }

  ghost predicate Live(s: Server) {
    I.Inv(s) && s.listenFd in s.open
  }

  /** One consumed request, as an event. */
  lemma HandleIsStep(s: Server, i: nat, ch: Choice, read: Reading)
    requires I.Inv(s) && s.listenFd in s.open && Connected(s, i)
    requires FreshChoice(s.clients[i], s.open, read, ch) && NextRequest(s.clients[i].inbox.rx).Some?
    ensures var c, req := s.clients[i], NextRequest(s.clients[i].inbox.rx).value;
            var h, s1 := HandleRequest(s.shared, c, s.open, read(req), ch), Step(s, Handle(i, ch), read);
            && Guarded(s, Handle(i, ch)) && Honest(s, Handle(i, ch), read)
            && I.Inv(s1) && s1.listenFd == s.listenFd && s1.listenFd in s1.open
            && (h.Some? ==> s1 == Put(s, i, h.value.0.(inbox := Take(c.inbox, req))).(open := h.value.1)
                            && Connected(s1, i))
  {
    var c, req := s.clients[i], NextRequest(s.clients[i].inbox.rx).value;
    ListenerStays(s, Handle(i, ch), read);
    I.RequestKeepsBuffer(s.shared, c, s.open, read(req), ch);
    hide HandleRequest, I.Inv, FreshChoice, NextRequest;
  }

  lemma PutTwice(s: Server, i: nat, a: Client, open: set<int>, b: Client, open': set<int>)
    requires i < |s.clients|
    ensures Put(Put(s, i, a).(open := open), i, b).(open := open') == Put(s, i, b).(open := open')
    ensures Put(s, i, s.clients[i]).(open := s.open) == s
  {
  }

  lemma {:induction false} DrainIsRun(s: Server, i: nat, choices: nat -> Choice, k: nat, read: Reading)
    requires Live(s) && Connected(s, i)
    requires FairDrain(s.shared, s.clients[i], s.open, read, choices, k)
    ensures var es := DrainEvents(s.shared, s.clients[i], s.open, read, i, choices, k);
            var (c, open) := Drain(s.shared, s.clients[i], s.open, read, choices, k);
            && Legal(s, es, read) && Live(Run(s, es, read)) && Connected(Run(s, es, read), i)
            && Run(s, es, read) == Put(s, i, c).(open := open)
    decreases |s.clients[i].inbox.rx|
  {
    var c := s.clients[i];
    var n := NextRequest(c.inbox.rx);
    if n.None? || HandleRequest(s.shared, c, s.open, read(n.value), choices(k)).None? {
      PutTwice(s, i, c, s.open, c, s.open);
    } else {
      var e := Handle(i, choices(k));
      var s1 := Step(s, e, read);
      HandleIsStep(s, i, choices(k), read);
      hide HandleRequest, I.Inv, FreshChoice, NextRequest, Step;
      assert Live(s1);
      hide Live;
      DrainIsRun(s1, i, choices, k + 1, read);
      RunCons(s, e, DrainEvents(s1.shared, s1.clients[i], s1.open, read, i, choices, k + 1), read);
      var (c', open') := Drain(s.shared, c, s.open, read, choices, k);
      PutTwice(s, i, s1.clients[i], s1.open, c', open');
    }
  }

  lemma ClientIsRun(s: Server, i: nat, now: nat, input: ClientInput, read: Reading)
    requires Live(s) && i < MAX_CLIENTS && FairClient(s.shared, s.clients[i], s.open, input, read)
    ensures var es := ClientEvents(s.shared, s.clients[i], s.open, i, now, input, read);
            var (c, open) := PollClient(s.shared, s.clients[i], s.open, now, input, read);
            Legal(s, es, read) && Live(Run(s, es, read)) && Run(s, es, read) == Put(s, i, c).(open := open)
  {
    var c := s.clients[i];
    PutTwice(s, i, c, s.open, c, s.open);
    if c.tcpFd >= 0 {
      if input.received.Gone? {
        RunOne(s, Hangup(i), read);
        ListenerStays(s, Hangup(i), read);
      } else {
        ConnectedIsRun(s, i, now, input, read);
      }
    }
  }

  lemma ConnectedIsRun(s: Server, i: nat, now: nat, input: ClientInput, read: Reading)
    requires Live(s) && Connected(s, i) && FairClient(s.shared, s.clients[i], s.open, input, read) && !input.received.Gone?
    ensures var es := ClientEvents(s.shared, s.clients[i], s.open, i, now, input, read);
            var (c, open) := PollClient(s.shared, s.clients[i], s.open, now, input, read);
            Legal(s, es, read) && Live(Run(s, es, read)) && Run(s, es, read) == Put(s, i, c).(open := open)
  {
    var c := s.clients[i];
    RecvThenDrain(s, i, input, read);
    hide Drain, DrainEvents, TakeIn, RecvEvents, I.Inv, FairClient;
    var c1 := TakeIn(c, input.received);
    var es := RecvEvents(i, input.received) + DrainEvents(s.shared, c1, s.open, read, i, input.choices, 0);
    var (c2, open2) := Drain(s.shared, c1, s.open, read, input.choices, 0);
    var s2 := Run(s, es, read);
    var t, u := TrimEvents(i, c2), TickEvents(i, Trim(c2), now, input.clock, input.xml);
    TrimIsRun(s2, i, read);
    TickIsRun(Run(s2, t, read), i, now, input.clock, input.xml, read);
    hide Trim, Tick, TrimEvents, TickEvents;
    RunAppend(s, es, t + u, read);
    RunAppend(s2, t, u, read);
    PutTwice(s, i, c2, open2, Trim(c2), open2);
    PutTwice(s, i, Trim(c2), open2, Tick(s.shared, Trim(c2), now, input.clock, input.xml), open2);
  }

  lemma TrimIsRun(s: Server, i: nat, read: Reading)
    requires Live(s) && Connected(s, i)
    ensures var es := TrimEvents(i, s.clients[i]);
            && Legal(s, es, read) && Live(Run(s, es, read)) && Connected(Run(s, es, read), i)
            && Run(s, es, read) == Put(s, i, Trim(s.clients[i])).(open := s.open)
  {
    if |s.clients[i].inbox.rx| >= RX_LIMIT {
      RunOne(s, Discard(i), read);
      ListenerStays(s, Discard(i), read);
    } else {
      PutTwice(s, i, s.clients[i], s.open, s.clients[i], s.open);
    }
  }

  lemma TickIsRun(s: Server, i: nat, now: nat, clock: u64, xml: seq<byte>, read: Reading)
    requires Live(s) && Connected(s, i) && |xml| <= MAX_PAYLOAD
    ensures var es := TickEvents(i, s.clients[i], now, clock, xml);
            && Legal(s, es, read) && Live(Run(s, es, read))
            && Run(s, es, read) == Put(s, i, Tick(s.shared, s.clients[i], now, clock, xml)).(open := s.open)
  {
    if MetadataDue(s.clients[i], now) {
      var e := SendMetadata(i, now, clock, xml);
      RunOne(s, e, read);
      ListenerStays(s, e, read);
    } else {
      PutTwice(s, i, s.clients[i], s.open, s.clients[i], s.open);
    }
  }

  lemma RecvThenDrain(s: Server, i: nat, input: ClientInput, read: Reading)
    requires Live(s) && Connected(s, i) && FairClient(s.shared, s.clients[i], s.open, input, read) && !input.received.Gone?
    ensures var c1 := TakeIn(s.clients[i], input.received);
            var es := RecvEvents(i, input.received) + DrainEvents(s.shared, c1, s.open, read, i, input.choices, 0);
            var (c, open) := Drain(s.shared, c1, s.open, read, input.choices, 0);
            && Legal(s, es, read) && Live(Run(s, es, read)) && Connected(Run(s, es, read), i)
            && Run(s, es, read) == Put(s, i, c).(open := open)
  {
    var c := s.clients[i];
    hide Drain, DrainEvents;
    if input.received.Data? {
      var e := Session.Recv(i, input.received.octets);
      var s1 := Step(s, e, read);
      ListenerStays(s, e, read);
      assert s1 == Put(s, i, TakeIn(c, input.received)).(open := s.open);
      DrainIsRun(s1, i, input.choices, 0, read);
      RunCons(s, e, DrainEvents(s1.shared, s1.clients[i], s1.open, read, i, input.choices, 0), read);
      var (c', open') := Drain(s.shared, TakeIn(c, input.received), s.open, read, input.choices, 0);
      PutTwice(s, i, TakeIn(c, input.received), s.open, c', open');
    } else {
      DrainIsRun(s, i, input.choices, 0, read);
      var es := DrainEvents(s.shared, c, s.open, read, i, input.choices, 0);
      assert [] + es == es;
    }
  }

  lemma {:induction false} FromIsRun(s: Server, i: nat, input: PollInput, read: Reading)
    requires Live(s) && i <= MAX_CLIENTS && FairFrom(s, i, input, read)
    ensures var es := EventsFrom(s, i, input, read);
            Legal(s, es, read) && Live(Run(s, es, read)) && Run(s, es, read) == PollFrom(s, i, input, read)
    decreases MAX_CLIENTS - i
  {
    if i < MAX_CLIENTS {
      hide ClientEvents, PollClient, FairClient, Legal, I.Inv;
      var es := ClientEvents(s.shared, s.clients[i], s.open, i, input.now, input.client(i), read);
      ClientIsRun(s, i, input.now, input.client(i), read);
      FromIsRun(Run(s, es, read), i + 1, input, read);
      RunAppend(s, es, EventsFrom(Run(s, es, read), i + 1, input, read), read);
    }
  }

  /** A poll with a fair kernel is exactly the run of its events, so every theorem about runs holds of it. */
  lemma PollIsRun(s: Server, input: PollInput, read: Reading)
    requires Live(s) && Fair(s, input, read)
    ensures var es := PollEvents(s, input, read);
            Legal(s, es, read) && Live(Run(s, es, read)) && Run(s, es, read) == PollServer(s, input, read)
  {
    hide EventsFrom, PollFrom, FairFrom;
    match input.connection
    case None =>
      FromIsRun(s, 0, input, read);
      assert [] + EventsFrom(s, 0, input, read) == EventsFrom(s, 0, input, read);
    case Some((fd, loopback)) =>
      var e := Accept(fd, loopback);
      ListenerStays(s, e, read);
      FromIsRun(Step(s, e, read), 0, input, read);
      RunCons(s, e, EventsFrom(Step(s, e, read), 0, input, read), read);
  }
}

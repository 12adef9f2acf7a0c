/** Requests over whole runs: the framing does not depend on how TCP chunks the stream, each request
    consumed is answered once and in order, and only an early DESCRIBE waits. */
module Requests {
  import opened Bytes
  import opened Rtp
  import opened Framing
  import opened Session
  import Invariants
  import W = Wire

  // ----- one reply for each request -----

  function Replies(ms: seq<Message>): seq<Message> {
    if ms == [] then []
    else Replies(ms[..|ms| - 1]) + if ms[|ms| - 1].Reply? then [ms[|ms| - 1]] else []
  }

  lemma RepliesSnoc(ms: seq<Message>, m: Message)
    ensures Replies(ms + [m]) == Replies(ms) + if m.Reply? then [m] else []
  {
    assert (ms + [m])[..|ms|] == ms;
  }

  /** The k-th reply on a connection answers the k-th request taken from it. */
  predicate Answered(c: Client, read: Reading) {
    && |Replies(c.log)| == |c.inbox.handled|
    && forall k :: 0 <= k < |c.inbox.handled| ==> Replies(c.log)[k].Reply? && Replies(c.log)[k].cseq == read(c.inbox.handled[k]).cseq
  }

  /** Each request let through the gate of `Deferred` gets exactly one reply, with its own CSeq. */
  lemma RequestReplies(sh: Shared, c: Client, open: set<int>, r: Request, ch: Choice) returns (m: Message)
    ensures m.Reply? && m.cseq == r.cseq
    ensures var h := HandleRequest(sh, c, open, r, ch);
            && (h.None? <==> Authorised(sh, c, ch) && Deferred(sh, r))
            && (h.Some? ==> Replies(h.value.0.log) == Replies(c.log) + [m] && h.value.0.inbox.handled == c.inbox.handled)
  {
    if Authorised(sh, c, ch) && r.verb == Setup {
      m := SetupShape(sh, c, open, r, ch);
      hide HandleSetup;
    } else if Authorised(sh, c, ch) && r.verb == Teardown {
      m := TeardownReplies(c, open, r);
      hide HandleTeardown;
    } else if Authorised(sh, c, ch) && r.verb == Play {
      m := PlayReplies(c, r, ch);
      hide HandlePlay;
    } else {
      m := QuietReply(sh, c, open, r, ch);
    }
    RepliesSnoc(c.log, m);
    hide Replies;
  }

  lemma PlayReplies(c: Client, r: Request, ch: Choice) returns (m: Message)
    ensures m.Reply? && m.cseq == r.cseq
    ensures HandlePlay(c, r, ch).log == c.log + [m] && HandlePlay(c, r, ch).inbox.handled == c.inbox.handled
  {
    m := match SessionError(c, r) case Some(code) => Reply(code, r.cseq, NoDetail) case None => Reply(200, r.cseq, FromNow);
  }

  lemma TeardownReplies(c: Client, open: set<int>, r: Request) returns (m: Message)
    ensures m.Reply? && m.cseq == r.cseq
    ensures var c' := HandleTeardown(c, open, r).0;
            Replies(c'.log) == Replies(c.log) + [m] && c'.inbox.handled == c.inbox.handled
  {
    match SessionError(c, r)
    case Some(code) =>
      m := Reply(code, r.cseq, NoDetail);
      RepliesSnoc(c.log, m);
    case None =>
      m := Reply(200, r.cseq, NoDetail);
      TeardownLog(c, open, r);
      ByesAreNoReplies(c.log, c);
      RepliesSnoc(c.log + Byes(c), m);
      Assoc(c.log, Byes(c), [m]);
  }

  /** A BYE packet with one source and a reason (RFC 3550, section 6.6), read octet by octet: the length field
      counts words less one, and the reason is padded with zeroes to a word. */
  function ReadBye(b: seq<byte>): Option<(u32, seq<byte>)> {
    if |b| < 12 || b[0] / 0x20 != 4 || b[0] % 0x20 != 1 || b[1] != 203 || |b| != 4 * (FromBE16(b[2..4]) as int + 1) then None
    else
      var end := 9 + b[8] as int;
      if !(end <= |b| < end + 4) || exists k :: end <= k < |b| && b[k] != 0 then None
      else Some((FromBE32(b[4..8]), b[9..end]))
  }

  lemma ByeReadable(ssrc: u32)
    ensures |Bye(ssrc)| == 24 && ReadBye(Bye(ssrc)) == Some((ssrc, W.Ascii("session ended")))
  {
    var b := Bye(ssrc);
    assert b[2..4] == [0, 5] && b[4..8] == BE32(ssrc) && b[9..22] == BYE_REASON;
    assert FromBE16([0, 5]) == 5;
    BE32RoundTrip(ssrc);
    assert BYE_REASON == W.Ascii("session ended");
    hide BE32, FromBE32, FromBE16;
  }

  /** The message is a BYE of track `x`, on its RTCP side. */
  predicate IsBye(m: Message, id: TrackId, x: Track) {
    m.RtcpOut? && m.track == id && m.via == ViaOf(x, true) && ReadBye(m.data) == Some((x.ssrc, W.Ascii("session ended")))
  }

  /** TEARDOWN says goodbye on each active track with its own SSRC, video first, then replies and resets. */
  lemma TeardownByes(c: Client, open: set<int>, r: Request)
    requires SessionError(c, r).None?
    ensures var c', n := HandleTeardown(c, open, r).0, (if c.video.active then 1 else 0) + (if c.metadata.active then 1 else 0);
            && c.log <= c'.log && |c'.log| == |c.log| + n + 1 && c'.log[|c.log| + n] == Reply(200, r.cseq, NoDetail)
            && (c.video.active ==> IsBye(c'.log[|c.log|], Video, c.video))
            && (c.metadata.active ==> IsBye(c'.log[|c.log| + n - 1], Metadata, c.metadata))
            && c' == c.(video := CLOSED_TRACK, metadata := CLOSED_TRACK, hasSession := false, playing := false,
                        waitingForSps := false, log := c'.log)
  {
    ByeReadable(c.video.ssrc);
    ByeReadable(c.metadata.ssrc);
    hide Bye, ReadBye, ViaOf;
  }

  /** The same with the messages spelled out. */
  lemma TeardownLog(c: Client, open: set<int>, r: Request)
    requires SessionError(c, r).None?
    ensures var c' := HandleTeardown(c, open, r).0;
            && c'.log == c.log + Farewell(c, r) && c'.inbox.handled == c.inbox.handled
            && !c'.hasSession && !c'.playing && c'.video == c'.metadata == CLOSED_TRACK
  {
  }

  function Byes(c: Client): seq<Message> {
    (if c.video.active then [RtcpOut(Video, ViaOf(c.video, true), Bye(c.video.ssrc))] else [])
    + (if c.metadata.active then [RtcpOut(Metadata, ViaOf(c.metadata, true), Bye(c.metadata.ssrc))] else [])
  }

  function Farewell(c: Client, r: Request): seq<Message> {
    Byes(c) + [Reply(200, r.cseq, NoDetail)]
  }

  lemma ByesAreNoReplies(ms: seq<Message>, c: Client)
    ensures Replies(ms + Byes(c)) == Replies(ms)
  {
    var v := if c.video.active then [RtcpOut(Video, ViaOf(c.video, true), Bye(c.video.ssrc))] else [];
    if c.video.active {
      RepliesSnoc(ms, v[0]);
    } else {
      assert ms + v == ms;
    }
    if c.metadata.active {
      var m := RtcpOut(Metadata, ViaOf(c.metadata, true), Bye(c.metadata.ssrc));
      RepliesSnoc(ms + v, m);
      assert ms + Byes(c) == ms + v + [m];
    } else {
      assert ms + Byes(c) == ms + v;
    }
  }

  lemma {:induction false} MediaIsNoReply(c: Client, fs: seq<Fragment>, ts: u32)
    ensures Replies(RtpSendAll(c, fs, ts).log) == Replies(c.log)
    decreases |fs|
  {
    if fs != [] {
      var c1 := RtpSend(c, Video, PT_H264, fs[0].marker, ts, fs[0].payload);
      RepliesSnoc(c.log, c1.log[|c.log|]);
      MediaIsNoReply(c1, fs[1..], ts);
    }
  }

  // ----- framing -----

  /** Requests consumed and octets still buffered account for everything received. */
  predicate Framed(c: Client) {
    c.inbox.discards == 0 ==>
      && Flatten(c.inbox.handled) + c.inbox.rx == c.inbox.received
      && (0 !in c.inbox.received ==> Cut(c.inbox.received) == c.inbox.handled + Cut(c.inbox.rx) && Rest(c.inbox.received) == Rest(c.inbox.rx))
  }

  lemma RecvFramed(c: Client, data: seq<byte>)
    requires Framed(c)
    ensures Framed(Append(c, data))
  {
    Assoc(Flatten(c.inbox.handled), c.inbox.rx, data);
    if c.inbox.discards == 0 && 0 !in c.inbox.received + data {
      assert 0 !in c.inbox.received by {
        assert c.inbox.received <= c.inbox.received + data;
      }
      CutAppend(c.inbox.received, data);
      CutAppend(c.inbox.rx, data);
      hide Cut, Rest, Flatten;
      Assoc(c.inbox.handled, Cut(c.inbox.rx), Cut(Rest(c.inbox.rx) + data));
    }
  }

  lemma TakeCut(rx: seq<byte>, req: seq<byte>)
    requires NextRequest(rx) == Some(req) && 0 !in rx
    ensures Cut(rx) == [req] + Cut(rx[|req|..]) && Rest(rx) == Rest(rx[|req|..])
  {
    assert CString(rx) == rx;
  }

  /** Taking the first request off the buffer, on sequences. */
  lemma TakeFlatten(handled: seq<seq<byte>>, rx: seq<byte>, req: seq<byte>, rest: seq<byte>)
    requires rx == req + rest
    ensures Flatten(handled + [req]) + rest == Flatten(handled) + rx
  {
    FlattenOne(handled, req);
    Regroup(Flatten(handled), req, rest, rx);
  }

  lemma TakeFramed(handled: seq<seq<byte>>, rx: seq<byte>, req: seq<byte>, rest: seq<byte>)
    requires NextRequest(rx) == Some(req) && 0 !in rx && rest == rx[|req|..]
    ensures (handled + [req]) + Cut(rest) == handled + Cut(rx) && Rest(rest) == Rest(rx)
  {
    TakeCut(rx, req);
    Regroup(handled, [req], Cut(rest), Cut(rx));
  }

  lemma FlattenOne<T>(parts: seq<seq<T>>, p: seq<T>)
    ensures Flatten(parts + [p]) == Flatten(parts) + p
  {
    FlattenAppend(parts, [p]);
    assert [p][1..] == [];
    assert Flatten([p]) == p;
  }

  lemma Regroup<T>(a: seq<T>, b: seq<T>, c: seq<T>, bc: seq<T>)
    requires bc == b + c
    ensures (a + b) + c == a + bc
  {
  }

  lemma ConsumeFramed(c: Client, req: seq<byte>)
    requires Framed(c) && NextRequest(c.inbox.rx) == Some(req)
    ensures Framed(c.(inbox := Take(c.inbox, req)))
  {
    var rest := c.inbox.rx[|req|..];
    TakeFlatten(c.inbox.handled, c.inbox.rx, req, rest);
    if c.inbox.discards == 0 && 0 !in c.inbox.received {
      assert forall b :: b in c.inbox.rx ==> b in Flatten(c.inbox.handled) + c.inbox.rx;
      TakeFramed(c.inbox.handled, c.inbox.rx, req, rest);
    }
    hide NextRequest, Cut, Rest, Flatten;
  }

  // ----- runs -----

  /** The books of one connection. */
  predicate Balanced(c: Client, read: Reading) {
    && Answered(c, read) && Framed(c) && |c.inbox.rx| <= RX_LIMIT
    && forall r :: r in c.inbox.handled ==> |r| <= RX_LIMIT
  }

  /** Framing is about the buffer alone. */
  lemma SameInboxFramed(c: Client, c': Client)
    requires Framed(c) && c'.inbox == c.inbox
    ensures Framed(c')
  {
  }

  lemma ConsumeBalanced(sh: Shared, c: Client, open: set<int>, read: Reading, ch: Choice)
    requires Balanced(c, read)
    ensures Balanced(Consume(sh, c, open, read, ch).0, read)
  {
    hide HandleRequest, NextRequest, Replies, Framed;
    var n := NextRequest(c.inbox.rx);
    if n.Some? {
      var m := RequestReplies(sh, c, open, read(n.value), ch);
      Invariants.RequestKeepsBuffer(sh, c, open, read(n.value), ch);
      var c' := Consume(sh, c, open, read, ch).0;
      ConsumeFramed(c, n.value);
      SameInboxFramed(if c'.inbox == c.inbox then c else c.(inbox := Take(c.inbox, n.value)), c');
    }
  }

  lemma MetadataBalanced(sh: Shared, c: Client, clock: u64, xml: seq<byte>, read: Reading)
    requires Balanced(c, read)
    ensures Balanced(MetadataPacket(sh, c, clock, xml), read)
  {
    RepliesSnoc(c.log, MetadataPacket(sh, c, clock, xml).log[|c.log|]);
  }

  lemma PushBalanced(c: Client, stream: nat, nal: Nal, ts: u32, last: bool, read: Reading)
    requires Balanced(c, read)
    ensures Balanced(PushTo(c, stream, nal, ts, last), read)
  {
    Invariants.PushKeeps(c, stream, nal, ts, last);
    MediaIsNoReply(c.(waitingForSps := false), Packetize(nal, last), ts);
  }

  lemma FreeBalanced(c: Client, read: Reading)
    requires c.log == [] && c.inbox.handled == [] && c.inbox.rx == [] && c.inbox.received == []
    ensures Balanced(c, read)
  {
    assert Find([]).None?;
    hide Find, FindFrom;
  }

  lemma StepBalanced(s: Server, e: Event, i: nat, read: Reading)
    requires Shaped(s) && i < MAX_CLIENTS && Balanced(s.clients[i], read) && Honest(s, e, read)
    ensures Balanced(Step(s, e, read).clients[i], read)
  {
    var c, c' := s.clients[i], Step(s, e, read).clients[i];
    if Slot(e) == Some(i) {
      match e
      case Hangup(_) => FreeBalanced(c', read);
      case Recv(_, data) => RecvFramed(c, data);
      case Handle(_, ch) => ConsumeBalanced(s.shared, c, s.open, read, ch);
      case Discard(_) =>
      case SendMetadata(_, _, clock, xml) => MetadataBalanced(s.shared, c, clock, xml, read);
    } else if e.Push? && c' != c {
      PushBalanced(c, e.stream, e.nal, Ticks(e.pts, s.shared.videoTsBase[e.stream]), e.last, read);
    } else if c' != c {
      FreeBalanced(c', read);
    }
  }

  /** On every connection of every run: one reply per request consumed, in order, and no octet lost
      or invented by the framing. */
  lemma {:induction false} RunBalanced(s: Server, es: seq<Event>, read: Reading)
    requires Shaped(s) && Legal(s, es, read)
    requires forall i :: 0 <= i < MAX_CLIENTS ==> Balanced(s.clients[i], read)
    ensures forall i :: 0 <= i < MAX_CLIENTS ==> Balanced(Run(s, es, read).clients[i], read)
    decreases |es|
  {
    if es != [] {
      forall i | 0 <= i < MAX_CLIENTS ensures Balanced(Step(s, es[0], read).clients[i], read) {
        StepBalanced(s, es[0], i, read);
      }
      RunBalanced(Step(s, es[0], read), es[1..], read);
    }
  }

  /** With no complete request left in the buffer, the overflow discard fires exactly when the octets
      received do not fit - a condition on the stream that does not mention how it was chunked. */
  lemma DiscardExactly(c: Client, read: Reading)
    requires Balanced(c, read) && c.inbox.discards == 0 && 0 !in c.inbox.received && NextRequest(c.inbox.rx).None?
    ensures c.inbox.handled == Cut(c.inbox.received) && c.inbox.rx == Rest(c.inbox.received)
    ensures |c.inbox.rx| >= RX_LIMIT <==> !Fits(c.inbox.received)
  {
    assert forall b :: b in c.inbox.rx ==> b in Flatten(c.inbox.handled) + c.inbox.rx;
    assert CString(c.inbox.rx) == c.inbox.rx;
    assert Cut(c.inbox.rx) == [];
  }

  /** Discards happen only on a drained buffer, and the connection is not replaced. */
  predicate Drained(s: Server, es: seq<Event>, i: nat, read: Reading)
    requires Shaped(s) && i < MAX_CLIENTS
    decreases |es|
  {
    es == [] ||
    (&& es[0] != Hangup(i) && es[0] != Shutdown
     && (es[0] == Discard(i) ==> NextRequest(s.clients[i].inbox.rx).None?)
     && Drained(Step(s, es[0], read), es[1..], i, read))
  }

  lemma MetadataKeepsInbox(sh: Shared, c: Client, clock: u64, xml: seq<byte>)
    ensures MetadataPacket(sh, c, clock, xml).tcpFd == c.tcpFd && MetadataPacket(sh, c, clock, xml).inbox == c.inbox
  {
  }

  lemma ReceivedGrows(s: Server, e: Event, i: nat, read: Reading)
    requires Shaped(s) && Connected(s, i) && e != Hangup(i) && e != Shutdown
    ensures var c, c' := s.clients[i], Step(s, e, read).clients[i];
            && c'.tcpFd == c.tcpFd && c.inbox.received <= c'.inbox.received
            && c'.inbox.discards == c.inbox.discards + if e == Discard(i) then 1 else 0
  {
    hide HandleRequest, Ticks, PushTo, MetadataPacket, NextRequest;
    if e.SendMetadata? && e.i == i {
      MetadataKeepsInbox(s.shared, s.clients[i], e.clock, e.xml);
    } else if e.Handle? && e.i == i {
      if NextRequest(s.clients[i].inbox.rx).Some? {
        Invariants.RequestKeepsBuffer(s.shared, s.clients[i], s.open, read(NextRequest(s.clients[i].inbox.rx).value), e.choice);
      }
    } else if e.Push? && 0 <= e.stream < STREAM_COUNT && e.nal != [] {
      Invariants.PushKeeps(s.clients[i], e.stream, e.nal, Ticks(e.pts, s.shared.videoTsBase[e.stream]), e.last);
    }
  }

  lemma {:induction false} RunReceivedGrows(s: Server, es: seq<Event>, i: nat, read: Reading)
    requires Shaped(s) && Connected(s, i) && Drained(s, es, i, read)
    ensures s.clients[i].inbox.received <= Run(s, es, read).clients[i].inbox.received
    decreases |es|
  {
    if es != [] {
      ReceivedGrows(s, es[0], i, read);
      RunReceivedGrows(Step(s, es[0], read), es[1..], i, read);
    }
  }

  lemma FitsShorter(a: seq<byte>, s: seq<byte>)
    requires a <= s && Fits(s)
    ensures Fits(a)
  {
    assert a + s[|a|..] == s;
    FitsPrefix(a, s[|a|..]);
  }

  /** A NUL-free stream whose requests fit is never discarded, however it is chunked and whatever
      else happens on the server. */
  lemma {:induction false} FittingNeverDiscarded(s: Server, es: seq<Event>, i: nat, read: Reading)
    requires Shaped(s) && Legal(s, es, read) && Connected(s, i) && Drained(s, es, i, read)
    requires Balanced(s.clients[i], read) && s.clients[i].inbox.discards == 0
    requires var final := Run(s, es, read).clients[i].inbox.received; Fits(final) && 0 !in final
    ensures Run(s, es, read).clients[i].inbox.discards == 0
    decreases |es|
  {
    if es != [] {
      var c, s1 := s.clients[i], Step(s, es[0], read);
      var final := Run(s, es, read).clients[i].inbox.received;
      ReceivedGrows(s, es[0], i, read);
      RunReceivedGrows(s, es, i, read);
      StepBalanced(s, es[0], i, read);
      FitsShorter(c.inbox.received, final);
      hide Fits, Balanced, Step, Guarded, Honest;
      if es[0] == Discard(i) {
        DiscardExactly(c, read);
      } else {
        FittingNeverDiscarded(s1, es[1..], i, read);
      }
    }
  }

  /** Chunking is irrelevant: once the buffer is drained, the requests handled are exactly the stream
      cut at each CRLFCRLF, in order. */
  lemma HandledIsCut(s: Server, es: seq<Event>, i: nat, read: Reading)
    requires Shaped(s) && Legal(s, es, read) && Connected(s, i) && Drained(s, es, i, read)
    requires forall j :: 0 <= j < MAX_CLIENTS ==> Balanced(s.clients[j], read)
    requires s.clients[i].inbox.discards == 0
    requires var final := Run(s, es, read).clients[i]; Fits(final.inbox.received) && 0 !in final.inbox.received && NextRequest(final.inbox.rx).None?
    ensures var final := Run(s, es, read).clients[i];
            final.inbox.handled == Cut(final.inbox.received) && final.inbox.rx == Rest(final.inbox.received) && |final.inbox.rx| < RX_LIMIT
  {
    FittingNeverDiscarded(s, es, i, read);
    RunBalanced(s, es, read);
    DiscardExactly(Run(s, es, read).clients[i], read);
  }

  // ----- DESCRIBE waits for parameter sets -----

  /** A request stays in the buffer exactly when it is an authorised DESCRIBE of an enabled stream
      whose parameter sets are not both cached; otherwise it is consumed. */
  lemma DeferredExactly(sh: Shared, c: Client, open: set<int>, read: Reading, ch: Choice)
    requires NextRequest(c.inbox.rx).Some?
    ensures var c' := Consume(sh, c, open, read, ch).0;
            var req := NextRequest(c.inbox.rx).value;
            if Authorised(sh, c, ch) && Deferred(sh, read(req)) then c' == c
            else c'.inbox == Take(c.inbox, req)
  {
    var m := RequestReplies(sh, c, open, read(NextRequest(c.inbox.rx).value), ch);
    hide HandleRequest, Deferred, Authorised;
  }

  /** Parameter sets, once cached, stay cached. */
  lemma StepCached(s: Server, e: Event, st: nat, read: Reading)
    requires Shaped(s) && Cached(s.shared, st)
    ensures Cached(Step(s, e, read).shared, st)
  {
  }

  lemma {:induction false} RunCached(s: Server, es: seq<Event>, st: nat, read: Reading)
    requires Shaped(s) && Cached(s.shared, st)
    ensures Cached(Run(s, es, read).shared, st)
    decreases |es|
  {
    if es != [] {
      StepCached(s, es[0], st, read);
      RunCached(Step(s, es[0], read), es[1..], st, read);
    }
  }
}

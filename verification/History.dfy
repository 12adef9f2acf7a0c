/** Replies over the history of calls: what enabling a stream, requiring authentication and pushing parameter
    sets have made of the server by the time a request is handled. */
module History {
  import opened Bytes
  import opened Session
  import opened Poll
  import opened PollRuns
  import opened Answers
  import R = Requests

  /** A call that pushes a parameter set of NAL unit type `t` that fits the cache of 128 octets. */
  predicate PushesSet(call: Call, stream: nat, t: nat) {
    call.CallPush? && call.stream == stream && call.nal != [] && call.nal[0] % 32 == t && |call.nal| <= 128
  }

  /** The last such set of all the calls, empty if there is none. */
  function LastSet(calls: seq<Call>, stream: nat, t: nat): seq<byte> {
    if calls == [] then []
    else
      var last := calls[|calls| - 1];
      if PushesSet(last, stream, t) then last.nal else LastSet(calls[..|calls| - 1], stream, t)
  }

  predicate Enables(call: Call, stream: int) {
    call.CallEnable? && call.stream == stream
  }

  /** The stream was enabled. */
  predicate WasEnabled(calls: seq<Call>, stream: int) {
    exists k :: 0 <= k < |calls| && Enables(calls[k], stream)
  }

  /** Authentication was asked for. */
  predicate WasRequired(calls: seq<Call>) {
    exists k :: 0 <= k < |calls| && calls[k].CallRequireAuth?
  }

  lemma OneMore(calls: seq<Call>, call: Call, stream: int)
    ensures WasEnabled(calls + [call], stream) <==> WasEnabled(calls, stream) || Enables(call, stream)
    ensures WasRequired(calls + [call]) <==> WasRequired(calls) || call.CallRequireAuth?
  {
    var all := calls + [call];
    assert all[|calls|] == call;
    if k :| 0 <= k < |calls| && Enables(calls[k], stream) {
      assert Enables(all[k], stream);
    }
    if k :| 0 <= k < |calls| && calls[k].CallRequireAuth? {
      assert all[k].CallRequireAuth?;
    }
  }

  // ----- what calls make of the shared state -----

  lemma {:induction false} PollFromKeeps(s: Server, i: nat, input: PollInput, read: Reading)
    requires Shaped(s) && i <= MAX_CLIENTS
    ensures PollFrom(s, i, input, read).shared == s.shared
    decreases MAX_CLIENTS - i
  {
    hide PollClient;
    if i < MAX_CLIENTS {
      var (c, open) := PollClient(s.shared, s.clients[i], s.open, input.now, input.client(i), read);
      PollFromKeeps(Put(s, i, c).(open := open), i + 1, input, read);
    }
  }

  /** A poll changes nothing the clients share. */
  lemma PollKeepsShared(s: Server, input: PollInput, read: Reading)
    requires Shaped(s)
    ensures PollServer(s, input, read).shared == s.shared
  {
    hide PollFrom;
    PollFromKeeps(Accepting(s, input.connection), 0, input, read);
  }

  /** The shared state after one call. */
  lemma CallShared(s: Server, call: Call, read: Reading)
    requires Shaped(s)
    ensures var sh, sh' := s.shared, Perform(s, call, read).shared;
            && sh'.authEnabled == (sh.authEnabled || call.CallRequireAuth?)
            && forall i :: 0 <= i < 2 ==>
                 && sh'.enabled[i] == (sh.enabled[i] || Enables(call, i))
                 && sh'.sps[i] == (if PushesSet(call, i, 7) then call.nal else sh.sps[i])
                 && sh'.pps[i] == (if PushesSet(call, i, 8) then call.nal else sh.pps[i])
  {
    if call.CallPoll? {
      PollKeepsShared(s, call.input, read);
    }
    hide PollServer, PushTo, Ticks;
  }

  lemma {:induction false} PerformSnoc(s: Server, calls: seq<Call>, call: Call, read: Reading)
    requires Shaped(s)
    ensures PerformAll(s, calls + [call], read) == Perform(PerformAll(s, calls, read), call, read)
    decreases |calls|
  {
    hide Perform;
    if calls == [] {
      assert [] + [call] == [call] && [call][1..] == [];
    } else {
      assert (calls + [call])[1..] == calls[1..] + [call];
      PerformSnoc(Perform(s, calls[0], read), calls[1..], call, read);
    }
  }

  /** The shared state of a server that started blank. */
  predicate Remembers(sh: Shared, calls: seq<Call>) {
    && |sh.enabled| == |sh.sps| == |sh.pps| == 2
    && (sh.authEnabled <==> WasRequired(calls))
    && forall i :: 0 <= i < 2 ==>
         && (sh.enabled[i] <==> WasEnabled(calls, i))
         && sh.sps[i] == LastSet(calls, i, 7) && sh.pps[i] == LastSet(calls, i, 8)
  }

  lemma RemembersNext(s: Server, calls: seq<Call>, call: Call, read: Reading)
    requires Shaped(s) && Remembers(s.shared, calls)
    ensures Remembers(Perform(s, call, read).shared, calls + [call])
  {
    hide Perform, PushesSet, WasEnabled, WasRequired, Enables;
    CallShared(s, call, read);
    OneMore(calls, call, 0);
    OneMore(calls, call, 1);
    assert (calls + [call])[..|calls|] == calls;
  }

  /** After any calls from start-up the shared state is what those calls say, and nothing else. */
  lemma {:induction false} SharedAfter(listenFd: int, videoTsBase: seq<u32>, metadataTsBase: u32, calls: seq<Call>, read: Reading)
    requires |videoTsBase| == 2
    ensures Remembers(PerformAll(Init(listenFd, videoTsBase, metadataTsBase), calls, read).shared, calls)
    decreases |calls|
  {
    hide Perform;
    var s := Init(listenFd, videoTsBase, metadataTsBase);
    if calls != [] {
      var n := |calls| - 1;
      SharedAfter(listenFd, videoTsBase, metadataTsBase, calls[..n], read);
      assert calls[..n] + [calls[n]] == calls;
      PerformSnoc(s, calls[..n], calls[n], read);
      RemembersNext(PerformAll(s, calls[..n], read), calls[..n], calls[n], read);
    }
  }

  // ----- replies -----

  predicate Admitted(calls: seq<Call>, c: Client, ch: Choice) {
    !WasRequired(calls) || c.loopback || ch.credentialsOk
  }

  lemma PredicatesAre(sh: Shared, calls: seq<Call>, c: Client, r: Request, ch: Choice)
    requires Remembers(sh, calls)
    ensures Authorised(sh, c, ch) == Admitted(calls, c, ch)
    ensures StreamEnabled(sh, r.stream) == (r.stream < 2 && WasEnabled(calls, r.stream))
    ensures r.stream < 2 ==> Cached(sh, r.stream) == (LastSet(calls, r.stream, 7) != [] && LastSet(calls, r.stream, 8) != [])
  {
    hide LastSet, WasEnabled, WasRequired;
  }

  /** The answer to any request at any moment, over the calls made up to it: what waits, and every error code. */
  lemma AnswerFromHistory(sh: Shared, calls: seq<Call>, c: Client, open: set<int>, r: Request, ch: Choice) returns (code: nat)
    requires Remembers(sh, calls)
    ensures var h := HandleRequest(sh, c, open, r, ch);
            && (h.None? <==> Admitted(calls, c, ch) && r.verb == Describe && r.stream < 2 && WasEnabled(calls, r.stream)
                             && (LastSet(calls, r.stream, 7) == [] || LastSet(calls, r.stream, 8) == []))
            && (h.Some? ==>
                  && Ends(h.value.0, code) && code in {200, 400, 401, 404, 405, 454, 500}
                  && (code == 401 <==> !Admitted(calls, c, ch))
                  && (code == 404 <==> (Admitted(calls, c, ch) && r.verb in {Describe, Setup}
                                        && !(r.stream < 2 && WasEnabled(calls, r.stream))))
                  && (code == 405 <==> Admitted(calls, c, ch) && r.verb == Unknown))
  {
    PredicatesAre(sh, calls, c, r, ch);
    hide HandleRequest, Remembers, LastSet, Admitted, Authorised, StreamEnabled, Cached;
    var m := R.RequestReplies(sh, c, open, r, ch);
    code := 0;
    if !(Authorised(sh, c, ch) && Deferred(sh, r)) {
      code := ReplyCodeExactly(sh, c, open, r, ch);
    }
  }

  /** What a reply carries besides its code: the methods, the last parameter sets pushed, the present as the
      start of play, a challenge; any other error nothing. */
  predicate Carries(calls: seq<Call>, r: Request, m: Message) {
    && m.Reply? && m.cseq == r.cseq
    && (m.code == 401 ==> m.detail == Challenge)
    && (m.code !in {200, 401} ==> m.detail == NoDetail)
    && (m.code == 200 ==>
          match r.verb
          case Options => m.detail == PublicMethods
          case Describe =>
            m.detail == Description(r.uri, LastSet(calls, r.stream, 7), LastSet(calls, r.stream, 8), r.stream == 0)
          case Setup => m.detail.Session?
          case Play => m.detail == FromNow
          case _ => m.detail == NoDetail)
  }

  predicate EndsWith(c: Client, m: Message) {
    c.log != [] && c.log[|c.log| - 1] == m
  }

  lemma SetupDetail(sh: Shared, c: Client, open: set<int>, r: Request, ch: Choice) returns (m: Message)
    ensures EndsWith(HandleSetup(sh, c, open, r, ch).0, m) && m.Reply? && m.cseq == r.cseq && m.code != 401
    ensures if m.code == 200 then m.detail.Session? else m.detail == NoDetail
  {
    m := SetupShape(sh, c, open, r, ch);
    hide Prepare;
  }

  lemma TeardownDetail(c: Client, open: set<int>, r: Request) returns (m: Message)
    ensures EndsWith(HandleTeardown(c, open, r).0, m) && m.Reply? && m.cseq == r.cseq && m.code != 401 && m.detail == NoDetail
  {
    if SessionError(c, r).Some? {
      m := Reply(SessionError(c, r).value, r.cseq, NoDetail);
    } else {
      R.TeardownByes(c, open, r);
      m := Reply(200, r.cseq, NoDetail);
      hide HandleTeardown;
    }
  }

  lemma PlayDetail(c: Client, r: Request, ch: Choice) returns (m: Message)
    ensures EndsWith(HandlePlay(c, r, ch), m) && m.Reply? && m.cseq == r.cseq && m.code != 401
    ensures m.detail == if m.code == 200 then FromNow else NoDetail
  {
    m := R.PlayReplies(c, r, ch);
  }

  lemma QuietDetail(sh: Shared, calls: seq<Call>, c: Client, open: set<int>, r: Request, ch: Choice) returns (m: Message)
    requires Remembers(sh, calls) && HandleRequest(sh, c, open, r, ch).Some?
    requires Authorised(sh, c, ch) ==> r.verb !in {Setup, Play, Teardown}
    ensures EndsWith(HandleRequest(sh, c, open, r, ch).value.0, m) && Carries(calls, r, m)
  {
    m := QuietReply(sh, c, open, r, ch);
    hide LastSet, HandleSetup, HandlePlay, HandleTeardown, WasEnabled, WasRequired, Authorised;
  }

  /** The detail of any reply, over the calls made up to it. */
  lemma DetailFromHistory(sh: Shared, calls: seq<Call>, c: Client, open: set<int>, r: Request, ch: Choice) returns (m: Message)
    requires Remembers(sh, calls) && HandleRequest(sh, c, open, r, ch).Some?
    ensures EndsWith(HandleRequest(sh, c, open, r, ch).value.0, m) && Carries(calls, r, m)
  {
    hide LastSet, HandleSetup, HandlePlay, HandleTeardown, WasEnabled, WasRequired, Authorised, EndsWith, Remembers;
    if Authorised(sh, c, ch) && r.verb == Setup {
      m := SetupDetail(sh, c, open, r, ch);
    } else if Authorised(sh, c, ch) && r.verb == Teardown {
      m := TeardownDetail(c, open, r);
    } else if Authorised(sh, c, ch) && r.verb == Play {
      m := PlayDetail(c, r, ch);
    } else {
      m := QuietDetail(sh, calls, c, open, r, ch);
    }
  }
}

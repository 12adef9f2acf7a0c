# Majestic streamer and FH8852V201 ISP: a verified model

Dafny models of the parts of this repository that carry algorithms, with machine-checked proofs.
`dafny verify dfyconfig.toml` checks everything.

**The RTSP/RTP server** (`majestic/rtsp_server.c`) appears twice. `Session` is its meaning: a state
machine over events (a connection is accepted or lost, octets arrive, a request is handled, the buffer
overflows, metadata is due, a NAL unit is pushed, the server is closed), with `Poll` composing events
into `rtsp_server_poll`. `RtspServer` is its form: classes for a track, a client slot and the server, with
the receive buffer, the packet buffers and the descriptors updated in place, each method proved to have
exactly the effect `Session` or `Poll` gives it. Theorems about runs are proved once, about the state
machine; every call is a run of known events (`Poll`, `PollRuns`), and `CallRuns` states the results for
any interleaving of calls. They say what a client recovers (`Delivery`, `EndToEnd`, `Connections`), who
owns which descriptor (`Invariants`), which requests are answered (`Requests`), that chunking is irrelevant
(`Framing`, `Chunking`), what replies mean (`Answers`, and over the history of calls `History`), RTP numbering and metadata pacing (`TrackRuns`).
The clock, random numbers, the results of `recv`, `accept`, `socket` and `bind`, and whether credentials
are good are inputs of the events; what a request says is an arbitrary function `Reading` of its octets.
Every client keeps a ghost history: octets received, requests handled, discards, messages sent.

**The peers.** The RFC 6184 receiver (sections 5.6 and 5.8) in `Rtp` is the specification against which
packetization is judged; `Wire` and `Sockets` model the demultiplexer of `capture.py` over arbitrary
chunks, `Replies` the shape of reply text it relies on, `ReplyText` what a client reads from it, and `Connections` closes the circle: what the
server's sockets were given is read back message by message. `Timestamps` models `access_units` of
`compare.py`; `AnnexB` and `AccessUnits` the two loaders of `replay.c` and `fake_mpi.c` and
`strip_start_code`; `Base64` both directions, in place.

**The ISP.** `Log2`, `Window` and `StatWindow` give the goto-shaped search of `isp_init.c`, its fixed-point
logarithm and reciprocal, and the register packing a specification, on 32-bit words where nothing is
allowed to wrap unnoticed. `IspPool` and `IspCore` model the bump allocator on wrapping words with real
masks (`Bits`), and prove the separately computed pool size always sufficient. `Strides` compares the
programmed strides with the allocated rows.

Some promises hold only under a condition; the lemmas named `...Exactly` state it as an
if-and-only-if. The channels and ports a SETUP reply announces are those used exactly when they fit an
octet and 16 bits. A NAL unit of at most 1200 octets whose type is 0 or above 23 is sent whole and is not a
single NAL unit packet to a receiver. An address handed out by `isp_malloc` is inside the pool exactly
when its sums do not wrap. The quarter stride is rounded down where the allocator rounds up.

## Model

| member | source | states |
|---|---|---|
| `Rtp.ParseEncode` | majestic/rtsp_server.c:184-205 | what `parse` reads from a packet of `rtp_send` is the packet: marker, payload type, sequence number, timestamp, SSRC and payload |
| `Rtp.FixedHeader` | majestic/rtsp_server.c:187-199 | the header octet by octet: version 2 without padding, extension or sources, marker and type, then sequence number, timestamp and SSRC most significant octet first |
| `Rtp.NalRoundTrip` | majestic/rtsp_server.c:592-608 | the packets of one NAL unit, numbered from what an RFC 6184 receiver expects, add exactly that NAL unit to what it has recovered and leave it expecting the next number |
| `RtpRoundTrip.FuShape` | majestic/rtsp_server.c:599-607 | fragments of a NAL unit: how many, each 3 to 1200 octets, type 28 with the importance bits and the type of the NAL unit and a clear reserved bit, S exactly on the first, E exactly on the last, marker exactly on the last of a NAL unit sent with `last` |
| `RtpRoundTrip.PacketShape` | majestic/rtsp_server.c:592-608 | 1 packet, the NAL unit itself, up to 1200 octets, ceil((len-1)/1198) >= 2 packets above; every payload within 1200 octets; marker exactly on the last packet of a NAL unit sent with `last` |
| `RtpRoundTrip.RoundTripExactly` | majestic/rtsp_server.c:592-608 | depacketizing the packets of any list of NAL units gives the list back if and only if each one short enough to be sent whole has a type from 1 to 23 |
| `Framing.FindUnique` | majestic/rtsp_server.c:477-480 | the first CRLFCRLF decides where a request ends |
| `Framing.CutCovers` | majestic/rtsp_server.c:474-489 | the requests cut from a stream and the unfinished rest are the stream, and the rest holds no terminator |
| `Framing.CutEndsOnce` | majestic/rtsp_server.c:477-486 | each of those requests ends in a CRLFCRLF and holds no other |
| `Framing.CutAppend` | majestic/rtsp_server.c:565-573 | cutting a stream does not depend on where it is split: requests already complete never change, later octets only extend the rest |
| `Framing.FitsPrefix` | majestic/rtsp_server.c:574-575 | if a whole stream fits the receive buffer request by request, so does every prefix of it |
| `Session.SetupShape` | majestic/rtsp_server.c:374-434 | SETUP sends one reply with the CSeq of the request, never touches the other track, the gate or the buffer, and changes nothing else when it answers 404 or 400 |
| `Session.QuietReply` | majestic/rtsp_server.c:436-472 | any request but an authorised SETUP, PLAY or TEARDOWN either stays in the buffer or adds one reply with its own CSeq and changes nothing else |
| `Answers.ReplyCodeExactly` | majestic/rtsp_server.c:305-472 | the code of a reply: 401, 405, 404, 454, 500 and 400 each if and only if their one cause is present, 200 otherwise; 500 exactly when no attempt binds a pair or the first that does is on port 65535 |
| `History.SharedAfter` | majestic/rtsp_server.c:514-533 | after any calls from start-up authentication is on if and only if it was asked for, a stream is enabled if and only if it was enabled, and its parameter sets are the last of type 7 and of type 8 pushed to it that fit 128 octets |
| `History.AnswerFromHistory` | majestic/rtsp_server.c:436-472 | so over the calls made: which DESCRIBE waits, and exactly when a request gets 401, 404 or 405 |
| `History.DetailFromHistory` | majestic/rtsp_server.c:436-472 | and what each reply carries: challenge, methods, the last parameter sets pushed, transport and session, the start of play, or nothing |
| `Answers.SetupAnnounces` | majestic/rtsp_server.c:374-434 | a 200 to SETUP repeats the numbers asked for, and packets of the track named go where these truncate to: over two channels modulo 256, or from the two sockets bound to the announced server ports to two client ports modulo 65536; the session announced is the one the client had, or a new one of 31 bits; the track starts afresh |
| `Answers.SetupRefused` | majestic/rtsp_server.c:376-391 | a 404 or 400 to SETUP changes nothing but the log |
| `Answers.SetupWithoutPorts` | majestic/rtsp_server.c:405-412 | a 500 has closed the track named and nothing else; only the pair of a bind at port 65535 stays on it |
| `Answers.AnnouncedExactly` | majestic/rtsp_server.c:396-421 | packets go where the reply says if and only if both numbers are below 256 over TCP, below 65536 over UDP |
| `Answers.AnnouncedElsewhere` | majestic/rtsp_server.c:396-398 | a request for channels 300 and 301 is answered with 300 and 301, and the packets go over 44 and 45 |
| `Answers.BoundPair` | majestic/rtsp_server.c:237-259 | a port returned is that of an attempt whose two sockets are bound to it and to the next |
| `Session.BindExactly` | majestic/rtsp_server.c:237-259 | binding keeps the pair of the first attempt that got two sockets, bound the first and bound the second next to it, and none if there is no such attempt; the port returned is the one it was bound to, or -1 exactly when that is 65535 or there is none |
| `Answers.CacheIsLastPushed` | majestic/rtsp_server.c:583-590 | in every run the parameter sets a DESCRIBE reply carries are the last ones pushed to the stream that fit 128 octets |
| `Answers.AcceptExactly` | majestic/rtsp_server.c:545-559 | a new connection gets the first free slot, blank but for its socket; it is closed if and only if none is free |
| `Session.RunAppend` | majestic/rtsp_server.c:541-581 | runs of events compose, and so does their legality |
| `Delivery.QuietRun` | majestic/rtsp_server.c:610-631 | over any run that does not interrupt a playing client, its video packets are exactly those of its gated NAL units, numbered consecutively on its own track |
| `Delivery.DeliveryExactly` | majestic/rtsp_server.c:610-631 | delivery over whole runs: any interleaving of polls, requests, pushes and other clients gives a playing client exactly the NAL units of its stream past the gate, in order and unmodified, if and only if those sent whole have types 1 to 23 |
| `Delivery.PlayClosesGate` | majestic/rtsp_server.c:449-457 | a successful PLAY makes the client wait for an SPS, starts the metadata schedule at its own time and leaves the video track and stream alone |
| `Delivery.OthersUntouched` | majestic/rtsp_server.c:620-630 | a push leaves every client alone that is not playing its video track of that stream |
| `EndToEnd.DeliveryAfterPlay` | majestic/rtsp_server.c:449-457 | from any reachable state: after a successful PLAY and up to the next SETUP, PLAY or TEARDOWN that is not refused, or a disconnection, the client recovers exactly its stream from the first SPS on (same condition on types), and nothing if no SPS is pushed |
| `Delivery.UninterruptingRequest` | majestic/rtsp_server.c:436-472 | any request but a SETUP, PLAY or TEARDOWN that is not refused adds at most one reply and changes nothing but a metadata track whose ports could not be bound |
| `Delivery.GateExactly` | majestic/rtsp_server.c:624-627 | the gate lets through what is pushed from the first NAL unit of type 7 on, nothing without one, and everything once open |
| `Delivery.PushedExactly` | majestic/rtsp_server.c:610-631 | what a stream is meant to get of a push: a NAL unit that is not empty and not of type 6, with its time in ticks of 64-bit arithmetic |
| `EndToEnd.ReachablePlaying` | majestic/rtsp_server.c:374-434 | in reachable states a playing client has an enabled stream |
| `EndToEnd.EndToEndDelivery` | majestic/rtsp_server.c:164-176 | from pushed NAL units to the octets of the TCP connection, through the demultiplexer and the depacketizer, back to the same NAL units, unless the metadata track shares the channel; no message is ever too large for the frame buffer |
| `Connections.UdpDelivery` | majestic/rtsp_server.c:178-182 | likewise over UDP: from the datagrams of its video socket, lost and reordered by nobody, a client recovers exactly the NAL units of its stream, from any reachable state |
| `Invariants.StepInv` | majestic/rtsp_server.c:541-581 | every event keeps: waiting_for_sps implies playing implies has_session, an active track implies has_session and is interleaved or has both sockets, stream_id is an enabled stream while has_session, free slots are blank, descriptors are owned |
| `Invariants.Reachable` | majestic/rtsp_server.c:491-512 | so all of that holds in every state reachable from `rtsp_server_init` |
| `Invariants.ExactlyOneOwner` | majestic/rtsp_server.c:126-162 | a descriptor is open if and only if the listener, a client or a track holds it, and never two of them; also for the inactive track a bind at port 65535 leaves behind |
| `Invariants.ShutdownClosesAll` | majestic/rtsp_server.c:633-639 | after `rtsp_server_close` nothing is open |
| `Invariants.RequestKeepsBuffer` | majestic/rtsp_server.c:436-472 | handling a request never changes the receive buffer or the connection |
| `Invariants.PushKeeps` | majestic/rtsp_server.c:592-608 | a push changes at most the gate, the sequence number and the output of a client, and only ever opens the gate |
| `Requests.RequestReplies` | majestic/rtsp_server.c:436-472 | a request is left in the buffer if and only if it is an authorised DESCRIBE that must wait; otherwise exactly one reply with its CSeq is sent |
| `Requests.TeardownByes` | majestic/rtsp_server.c:207-219 | TEARDOWN of the right session sends on each active track, video first, a packet that reads back (RFC 3550, section 6.6) as a BYE with the SSRC of the track and the reason `session ended`, then the reply, then resets the session and nothing else |
| `Requests.ByeReadable` | majestic/rtsp_server.c:207-219 | the 24 octets of a BYE, parsed: version 2, one source, type 203, its length in words, the SSRC, a reason of 13 octets and zeroes |
| `Requests.DeferredExactly` | majestic/rtsp_server.c:484-487 | a waiting request changes nothing and stays first in the buffer; every other is taken off it |
| `Requests.RunBalanced` | majestic/rtsp_server.c:474-489 | on every connection of every run the replies answer the consumed requests one for one, in order, and consumed plus buffered octets are the octets received until a discard |
| `Requests.DiscardExactly` | majestic/rtsp_server.c:574-575 | the overflow discard is due if and only if the stream received does not fit the buffer, a condition that does not mention chunks |
| `Requests.FittingNeverDiscarded` | majestic/rtsp_server.c:574-575 | a NUL-free stream that fits is never discarded, however it is chunked and whatever the other clients do |
| `Requests.HandledIsCut` | majestic/rtsp_server.c:474-489 | then the requests handled are exactly the stream cut at each CRLFCRLF, in order, and fewer than 4095 octets wait |
| `Requests.RunCached` | majestic/rtsp_server.c:583-590 | SPS and PPS once cached are never uncached |
| `TrackRuns.SetupStartsStream` | majestic/rtsp_server.c:423-425 | a successful SETUP gives its track sequence number 0 and the SSRC drawn for it |
| `TrackRuns.RunNumbered` | majestic/rtsp_server.c:184-205 | over any run without a rebuild of the track, its packets carry its SSRC and consecutive sequence numbers mod 65536, whatever other tracks, clients or streams do |
| `TrackRuns.VideoHolds` | majestic/rtsp_server.c:592-608 | the packets of a pushed NAL unit, parsed back one by one: payload type 96, fragment and marker, consecutive numbers, one timestamp, the SSRC of the track; the gate opens and nothing else changes |
| `TrackRuns.MetadataHolds` | majestic/rtsp_server.c:221-235 | a metadata packet, parsed back: payload type 107, the marker, the number and SSRC of its track, the clock in ticks, the text; the schedule moves on by one second and nothing else changes |
| `TrackRuns.NumberedFromSetup` | majestic/rtsp_server.c:423-425 | packet k of a track since its last successful SETUP, counting from 0, carries sequence number k mod 65536 and the SSRC of that SETUP |
| `TrackRuns.RunPaced` | majestic/rtsp_server.c:576-579 | from any state to the next PLAY or reset next_metadata_us moves by a second per metadata packet and by nothing else |
| `TrackRuns.PacedFromPlay` | majestic/rtsp_server.c:450-456 | from a successful PLAY to the next one or a reset it is the time of that PLAY plus a second per metadata packet sent since |
| `TrackRuns.NeverEarlyAfterPlay` | majestic/rtsp_server.c:576-579 | metadata packet k after a PLAY, counting from 0, is never sent before the PLAY plus k seconds |
| `TrackRuns.RequestNoRtp` | majestic/rtsp_server.c:436-472 | requests send replies and BYE packets, never RTP |
| `Poll.PollIsRun` | majestic/rtsp_server.c:541-581 | a whole `rtsp_server_poll` is the run of exactly these events: the accept, and for each client in turn what it received or its loss, the requests drained, an overflow and metadata if due; and the run is legal |
| `PollRuns.DrainStops` | majestic/rtsp_server.c:474-489 | draining stops only when no request is complete or the first is a DESCRIBE that must wait |
| `PollRuns.PollLeavesRoom` | majestic/rtsp_server.c:565-575 | a poll takes in exactly what was received; between polls fewer than 4095 octets are buffered, so `recv` is never asked for nothing, and a complete request left is a DESCRIBE that must wait |
| `PollRuns.OverflowExactly` | majestic/rtsp_server.c:574-575 | the buffer is emptied exactly when 4095 octets or more are left after draining |
| `PollRuns.GoneIsFreed` | majestic/rtsp_server.c:566-570 | a client whose `recv` ends leaves a blank free slot; exactly its descriptors are closed |
| `PollRuns.OneMetadataPerPoll` | majestic/rtsp_server.c:576-579 | a poll sends one metadata packet, never more, if and only if the client drained of its requests plays, has its metadata track and its next time has come; that time then moves on by one second |
| `PollRuns.AnsweredNextPoll` | majestic/rtsp_server.c:345-372 | once both parameter sets are cached the next poll answers a waiting DESCRIBE, with the sets cached then |
| `PollRuns.CallsAreRun` | majestic/rtsp_server.c:541-631 | any interleaving of polls, pushes and configuration calls is the run of their events, each call giving its own, and the run is legal |
| `PollRuns.CallsKeepEverything` | majestic/rtsp_server.c:491-631 | after any calls from start-up the session, descriptor and reply invariants hold |
| `CallRuns.CallsPush` | majestic/rtsp_server.c:610-631 | the events of calls push exactly what `rtsp_server_push_nal` was called with |
| `CallRuns.HarmlessCallsAreQuiet` | majestic/rtsp_server.c:436-472 | calls that keep a client connected and handle no SETUP, PLAY or TEARDOWN of it do not interrupt it |
| `CallRuns.DeliveryOverCalls` | majestic/rtsp_server.c:610-631 | delivery over any interleaving of calls: a playing client recovers exactly the NAL units its stream was called with, past the gate, if and only if those sent whole have types 1 to 23 |
| `CallRuns.EndToEndOverCalls` | majestic/rtsp_server.c:164-176 | the same from the octets of the TCP connection of an interleaved track, over any interleaving of calls |
| `CallRuns.UdpOverCalls` | majestic/rtsp_server.c:178-182 | and from the datagrams of a track with its own sockets |
| `CallRuns.DeliveryAfterPlayOverCalls` | majestic/rtsp_server.c:449-457 | delivery from the moment a poll handles a successful PLAY, through the rest of that poll and any later calls: exactly the NAL units pushed from the first SPS on, none without an SPS |
| `CallRuns.NumberedOverCalls` | majestic/rtsp_server.c:423-425 | packet k since the SETUP a poll handled has sequence number k mod 65536 and its SSRC, over any later calls |
| `CallRuns.PacedOverCalls` | majestic/rtsp_server.c:450-456 | next_metadata_us is the time of the PLAY a poll handled plus a second per metadata packet, over any later calls |
| `CallRuns.PollPunctual` | majestic/rtsp_server.c:576-579 | a poll without a PLAY sends metadata if and only if the schedule before it has come due and the client plays its metadata track |
| `CallRuns.PunctualOverCalls` | majestic/rtsp_server.c:576-579 | k packets after a PLAY a poll handled, over any later calls, a poll sends packet k if and only if it comes k seconds or more after that PLAY and the client still plays its metadata track |
| `CallRuns.NeverEarlyOverCalls` | majestic/rtsp_server.c:576-579 | and packet k, counting from 0, is never sent before that PLAY plus k seconds |
| `Chunking.PollClean` | majestic/rtsp_server.c:565-575 | a poll of a drained connection whose stream fits leaves it drained: everything complete handled in order, the rest buffered, nothing discarded |
| `Chunking.ChunkingIrrelevant` | majestic/rtsp_server.c:474-489 | over any calls that do not disconnect a client, its requests handled are exactly its stream cut at each CRLFCRLF, whatever the chunks, nothing is discarded and fewer than 4095 octets wait; for NUL-free streams that fit and hold no DESCRIBE of a stream without cached parameter sets |
| `Chunking.ChunkingFromAccept` | majestic/rtsp_server.c:545-559 | the same from the poll that accepts the connection on, with no condition on its state |
| `Connections.LogIsEncoded` | majestic/rtsp_server.c:103-124 | what is written to a connection is the encoding of its replies and frames |
| `Connections.LogDemultiplexed` | majestic/rtsp_server.c:164-182 | reading a connection to the end gives back exactly the replies and frames sent, in order |
| `Connections.FramesAreCarried` | majestic/rtsp_server.c:164-176 | each channel of a connection carries its RTP and RTCP packets, in order and octet for octet, and every reply is there once |
| `Connections.DatagramsAreCarried` | majestic/rtsp_server.c:178-182 | each pair of socket and port likewise as datagrams |
| `Connections.EveryConnectionReadable` | majestic/rtsp_server.c:164-182 | that holds of every connection after any calls from start-up, and no packet is ever dropped for its size |
| `RtspServer.TrackSlot.Close` | majestic/rtsp_server.c:126-135 | closes both descriptors of a track and blanks it |
| `RtspServer.TrackSlot.BindUdpPair` | majestic/rtsp_server.c:237-259 | sixteen attempts in order: the pair of the first good one is kept and its port returned, every other socket is closed; -1 when none is good, and when the good one is on port 65535, whose pair is kept |
| `RtspServer.ClientSlot.SendReply` | majestic/rtsp_server.c:118-124 | puts the reply, head and body, on the connection and in the log |
| `RtspServer.ClientSlot.TrackSend` | majestic/rtsp_server.c:164-182 | puts a packet on the track, interleaved or as a datagram; drops exactly interleaved ones over 1212 octets |
| `RtspServer.ClientSlot.RtpSend` | majestic/rtsp_server.c:184-205 | refines the specified packet, sequence number and output |
| `RtspServer.ClientSlot.SendVideoNal` | majestic/rtsp_server.c:592-608 | the loop that patches the two FU octets in place sends exactly the specified fragments |
| `RtspServer.ClientSlot.SendFragment` | majestic/rtsp_server.c:600-607 | one turn of it: the E bit is set on the last fragment only, the S bit cleared after the first |
| `RtspServer.ClientSlot.ResetSession` | majestic/rtsp_server.c:137-144 | closes both tracks and ends the session; the connection stays |
| `RtspServer.ClientSlot.Reset` | majestic/rtsp_server.c:156-162 | closes everything a slot owns and frees it |
| `RtspServer.ClientSlot.HandlePlay` | majestic/rtsp_server.c:449-457 | refines PLAY |
| `RtspServer.ClientSlot.HandleTeardown` | majestic/rtsp_server.c:460-467 | refines TEARDOWN, descriptors included; what it sends reads back as `Requests.TeardownByes` says |
| `RtspServer.ClientSlot.HandleSetup` | majestic/rtsp_server.c:374-434 | refines SETUP, descriptors included |
| `RtspServer.ClientSlot.HandleRequest` | majestic/rtsp_server.c:436-472 | refines the dispatch; false exactly when the request must wait, and then nothing changed |
| `RtspServer.ClientSlot.FirstRequest` | majestic/rtsp_server.c:477-480 | the scan of the NUL-terminated buffer finds the length of the first request |
| `RtspServer.ClientSlot.Fill` | majestic/rtsp_server.c:565-572 | appends what was received and terminates the buffer |
| `RtspServer.ClientSlot.Discharge` | majestic/rtsp_server.c:486-487 | the `memmove` takes exactly the first request off the buffer, terminator kept |
| `RtspServer.ClientSlot.DrainRequests` | majestic/rtsp_server.c:474-489 | the in-place loop refines draining |
| `RtspServer.ClientSlot.Poll` | majestic/rtsp_server.c:561-580 | one client of a poll refines the specified poll, of which `PollRuns.OneMetadataPerPoll` says when metadata is sent |
| `RtspServer.ClientSlot.Push` | majestic/rtsp_server.c:620-630 | one client of a push refines the specified push: gate, then packets |
| `RtspServer.RtspServer.constructor` | majestic/rtsp_server.c:491-512 | start-up yields the initial state |
| `RtspServer.RtspServer.PushNal` | majestic/rtsp_server.c:610-631 | refines a push over all slots, parameter cache included |
| `RtspServer.RtspServer.Poll` | majestic/rtsp_server.c:541-581 | refines a poll over all slots, accept included |
| `RtspServer.RtspServer.Close` | majestic/rtsp_server.c:633-639 | refines shutdown: every slot free, nothing open |
| `Replies.ReplyWellFormed` | majestic/rtsp_server.c:118-124 | whatever CSeq and URI a request carried, the reply begins `RTSP/` and its only Content-Length line, if any, announces its body |
| `ReplyText.ReplyRead` | majestic/rtsp_server.c:345-434 | from the octets of a reply a client reads back its code, CSeq, channels or ports, session and timeout, base, the decoded parameter sets and whether metadata is offered, and leaves what follows alone |
| `Wire.DemuxExactly` | tools/majestic-oracle/capture.py:24-32 | which octets are a frame, of which channel and length, and when a closing connection ends the reading |
| `Wire.FirstAnnounces` | tools/majestic-oracle/capture.py:35-36 | the first line that announces a length decides the length of the body |
| `Wire.AnyCase` | tools/majestic-oracle/capture.py:35-36 | and a line announces one if and only if it begins `content-length:` in any mix of letter cases |
| `Wire.DemuxEncode` | tools/majestic-oracle/capture.py:23-45 | one encoded message in front of anything is read as itself, with the rest untouched |
| `Wire.WireRoundTrip` | tools/majestic-oracle/capture.py:23-45 | any sequence of replies and frames is read back as that sequence with channels, payloads and bodies |
| `Sockets.Socket.SendAll` | majestic/rtsp_server.c:103-116 | over partial and interrupted sends exactly the given octets go out, once and in order |
| `Sockets.Conn.Fill` | tools/majestic-oracle/capture.py:17-21 | receiving moves octets into the buffer without changing the stream |
| `Sockets.Conn.NextMessage` | tools/majestic-oracle/capture.py:23-45 | what is returned depends on the octets alone, however they are chunked |
| `Base64.EncodeInto` | majestic/rtsp_server.c:44-57 | writes the encoding, 4*ceil(n/3) octets, and a NUL |
| `Base64.DecodeInto` | majestic/rtsp_server.c:65-82 | writes the whole decoding if it is shorter than `cap`, else exactly its first cap - 1 octets, and a NUL |
| `Base64.RoundTrip` | majestic/rtsp_server.c:44-82 | decoding the encoding of any octets gives them back |
| `Base64.NoiseIgnored` | majestic/rtsp_server.c:70-73 | an octet outside the alphabet other than the pad and NUL changes nothing wherever it is inserted |
| `Base64.ValueExactly` | majestic/rtsp_server.c:59-63 | an octet has the value v if and only if it is the v-th letter of the alphabet, A-Z a-z 0-9 + / |
| `Base64.EncodeAt` | majestic/rtsp_server.c:44-57 | every four letters spell three octets as a 24-bit number, most significant bits first, with pads where octets are missing |
| `AnnexB.SplitSerialized` | tools/majestic-oracle/replay.c:44-56 | splitting inverts serialization: NAL units without 00 00 01 inside and with a nonzero last octet, under any mix of start codes, are returned as they were |
| `AnnexB.MarksOfSerialized` | tools/majestic-oracle/replay.c:44-55 | a scan finds exactly the start codes that were written |
| `AnnexB.MarksExactly` | tools/majestic-oracle/replay.c:44-55 | of any stream whatever: a start code is found ending at an octet if and only if 00 00 01 ends there and another octet follows or another zero precedes |
| `AnnexB.MarkLength` | tools/majestic-oracle/replay.c:44-55 | and it is of four octets if and only if that zero precedes |
| `AnnexB.StripStartCode` | majestic/mini_streamer.c:337-346 | drops a leading start code of either length, and nothing else |
| `AnnexB.StrippedExactly` | majestic/mini_streamer.c:337-346 | four octets go, or three, and a buffer without a start code in front is returned unchanged, and no other |
| `AnnexB.SplittersAgree` | tools/majestic-oracle/fake_mpi.c:57-68 | of any stream both loaders find as many NAL units, ending at the same places, and stripping one of `fake_mpi` gives that of `replay` |
| `AccessUnits.Scan` | tools/majestic-oracle/replay.c:44-56 | the loop fills the table with the specified spans, start codes kept or not |
| `AccessUnits.HeadedExactly` | tools/majestic-oracle/replay.c:58-59 | every NAL unit has a first octet to take its type from if and only if the stream does not end with a four-octet start code |
| `AccessUnits.Load` | tools/majestic-oracle/replay.c:31-67 | the tables are the NAL units and their access units |
| `AccessUnits.LoadStream` | tools/majestic-oracle/fake_mpi.c:43-80 | likewise for the second loader, with the IDR flags |
| `AccessUnits.CodedNalType` | tools/majestic-oracle/fake_mpi.c:38-41 | `nal_type` looks at the octet after the start code, whichever length it has |
| `AccessUnits.SerializedLoadable` | tools/majestic-oracle/replay.c:31-67 | a serialized list of such NAL units, as many as the tables hold, never makes the loader read or write out of bounds, and its types are theirs |
| `AccessUnits.LoadSerialized` | tools/majestic-oracle/replay.c:31-67 | loading what was serialized gives back every NAL unit, and the access units of their types |
| `AccessUnits.GroupNals` | tools/majestic-oracle/replay.c:57-66 | access units are consecutive ranges from the first NAL unit to the last slice, each ending in its only one of type 1 to 5 |
| `AccessUnits.GroupCoded` | tools/majestic-oracle/fake_mpi.c:69-80 | likewise, marking those that end in type 5 |
| `AccessUnits.TilesAt` | tools/majestic-oracle/replay.c:57-66 | what that says of each single unit: where it begins and that its last NAL unit is its only slice |
| `AccessUnits.UnitsBySlices` | tools/majestic-oracle/replay.c:57-66 | in octets of the types: of the NAL units of an access unit exactly the last is of type 1 to 5, none is after the last access unit, and 5 marks an IDR |
| `AccessUnits.UnitsUnique` | tools/majestic-oracle/replay.c:57-66 | no other division has that property |
| `AccessUnits.LoadersAgree` | tools/majestic-oracle/fake_mpi.c:69-80 | so both loaders make the same access units of a file |
| `Timestamps.NeverDrift` | majestic/rtsp_server.c:619 | without 64-bit overflow the timestamps of any two frames differ by 9d/100 rounded down or one more mod 2^32 (one more exactly when the fractions carry), and by exactly 9d/100 when 100 divides d |
| `Timestamps.SameTimestampExactly` | majestic/rtsp_server.c:619 | two frames share a timestamp if and only if the ticks between them are a multiple of 2^32 |
| `Timestamps.ApartDiffer` | majestic/rtsp_server.c:619 | 12 microseconds and less than 2^32 ticks tell frames apart |
| `Timestamps.ElevenCanCollide` | majestic/rtsp_server.c:619 | 11 microseconds need not |
| `Timestamps.AccessUnits` | tools/majestic-oracle/compare.py:41-50 | the loop computes the regrouping |
| `Timestamps.RegroupExactly` | tools/majestic-oracle/compare.py:41-50 | regrouping stamped packets recovers the frames if and only if no two neighbours share a timestamp |
| `Timestamps.FramesRecoveredExactly` | tools/majestic-oracle/compare.py:41-50 | from the packets of the server for any frames of NAL units, the regrouping recovers the frames if and only if neighbours differ in timestamp |
| `Timestamps.PacedRecovered` | tools/majestic-oracle/compare.py:74-80 | so frames 12 microseconds and more, less than 2^32 ticks, apart are always recovered |
| `Timestamps.ScheduleIsPaced` | tools/majestic-oracle/replay.c:83-90 | until the frame number wraps, the replayed schedule keeps frames that far apart, and every second frame exactly 7200 ticks apart despite the jitter |
| `Timestamps.ScheduleSteps` | tools/majestic-oracle/replay.c:83-90 | the steps are 41037 and 38963 microseconds in turn |
| `Timestamps.ScheduleRunsExactly` | tools/majestic-oracle/replay.c:83-90 | the time grows from one frame to the next if and only if the 32-bit frame number does not wrap; when it does the schedule starts over |
| `Log2.EasyLog2` | sdk/lib/isp_init.c:138-163 | high part L = floor(log2 x), low octet f with 2^L(256+f) <= 256x < 2^L(257+f), for every x >= 1; -256 for 0 |
| `Log2.Monotone` | sdk/lib/isp_init.c:138-163 | hence it never decreases |
| `Log2.Unique` | sdk/lib/isp_init.c:138-163 | and that property determines the value |
| `Log2.Doubling` | sdk/lib/isp_init.c:138-163 | and doubling adds 256 |
| `Window.Descend` | sdk/lib/isp_init.c:222-244 | the loop ends at the first acceptable odd width from the start down, or at the odd number just below the limit, without wrapping or dividing by zero |
| `Window.IspWinParam` | sdk/lib/isp_init.c:173-253 | wherever no product, subtraction or shift leaves the word: the width w chosen so; if a width was found a count n with (n-1)(w+1) < dim <= n(w+1), else the old one; the stored logarithm and reciprocal those of the width; nothing else in the array changed |
| `Window.LimitIs` | sdk/lib/isp_init.c:177-199 | the limit by inequalities: 7 or 10/155 or 10/315 of the dimension in mode 0, a 22nd or an 18th less one in mode 1, else 0 |
| `Window.StartIs` | sdk/lib/isp_init.c:201-220 | the search starts from the largest odd width that is the limit or is both asked for and, with the one after it, less than half the dimension; just above the limit if there is none |
| `Window.GoodExactly` | sdk/lib/isp_init.c:226-236 | a width is rejected if and only if the dimension is half a window, whole windows and 1 to 7 more |
| `Window.ChosenUnique` | sdk/lib/isp_init.c:222-244 | there is only one such width |
| `Window.LargeEnough` | sdk/lib/isp_init.c:173-253 | dimensions of 67 to 8388607 always qualify, in modes 0 and 1 |
| `Window.SixtySixFails` | sdk/lib/isp_init.c:173-253 | 66 does not: from a small start the walk in mode 1 steps below zero and divides by zero |
| `Window.WalkExactly` | sdk/lib/isp_init.c:222-244 | in general the search succeeds if and only if the limit is at least 2 or some width is acceptable |
| `Window.ReciprocalIs` | sdk/lib/isp_init.c:246-252 | the stored reciprocal plus one is the nearest integer to 2^(L+10) over the width plus one, and lies in 512..1024 |
| `StatWindow.IspSetStatParam` | sdk/lib/isp_init.c:261-298 | in any mode leaves three windows, each the search result for its divisor, dimension and preset, wherever the searches do not wrap |
| `StatWindow.PresetsAre` | sdk/lib/isp_init.c:266-288 | the presets of each mode at their values |
| `StatWindow.AheadIs` | sdk/lib/isp_init.c:292-293 | the width asked for is the share of the dimension less one, all ones when there is none |
| `StatWindow.WindowedFits` | sdk/lib/isp_init.c:246-252 | of dimensions 67 to 65535 every window word fits its register field: 16, 10 (at least 511), 8 and 6 bits |
| `StatWindow.OrdinaryReady` | sdk/lib/isp_init.c:261-298 | sides of 67 to 65535 never make a search wrap |
| `StatWindow.StoredRecoverable` | sdk/lib/isp_init.c:314-333 | the or-ed words keep the fields apart: each field is read back |
| `StatWindow.IspSetNr3dDrcWin` | sdk/lib/isp_init.c:305-334 | the sixteen registers hold the packed windows of both passes and no other register changes; for sides of 67 to 65535 every window word can be read back |
| `IspPool.MallocIs` | sdk/lib/isp_buf_addr.c:258-277 | unless the sums wrap, an allocation succeeds if and only if the aligned buffer ends inside the pool, and then moves the cursor to its end |
| `IspPool.InsideExactly` | sdk/lib/isp_buf_addr.c:258-277 | a buffer handed out lies inside the pool past the cursor if and only if the sums did not wrap |
| `IspPool.UnchangedExactly` | sdk/lib/isp_buf_addr.c:258-277 | a failed or empty request, and no other, changes nothing; the cursor never goes back |
| `IspPool.RunOfRequests` | sdk/lib/isp_buf_addr.c:258-277 | over any sequence of requests with power-of-two alignment whose grants do not wrap: every buffer aligned, inside the pool, past all earlier ones, and the cursor never goes back |
| `IspPool.PackedExactly` | sdk/lib/isp_buf_addr.c:258-277 | and only then: if any grant wraps, some buffer is not in the pool past the cursor |
| `IspPool.PackedMeans` | sdk/lib/isp_buf_addr.c:258-277 | hence any two buffers are disjoint |
| `IspCore.IspCore.IspMalloc` | sdk/lib/isp_buf_addr.c:258-277 | refines the specified allocation, wrapping words and masks included; a negative status exactly on failure |
| `IspCore.GetBufSize` | sdk/lib/isp_buf_addr.c:202-222 | fills the 22 words as specified |
| `IspCore.TotalIs` | sdk/lib/isp_buf_addr.c:218-221 | the pool size is the aligned frame, two aligned coefficient buffers and constants, if that fits a word |
| `IspCore.Enough` | sdk/lib/isp_buf_addr.c:311-320 | a pool with room for the 128-aligned sizes makes any list of allocations succeed, end to end |
| `IspCore.PoolSuffices` | sdk/lib/isp_buf_addr.c:291-335 | the computed total is always enough: all 13 allocations succeed in any 128-aligned pool whose end does not wrap |
| `IspCore.EachInside` | sdk/lib/isp_buf_addr.c:323-335 | each non-empty buffer is 128-aligned and inside the pool; an empty one keeps its old address |
| `IspCore.NoneOverlap` | sdk/lib/isp_buf_addr.c:323-335 | no two of them overlap |
| `IspCore.AllPlaced` | sdk/lib/isp_buf_addr.c:323-335 | by name: 512 octets for gosd, 74328 for ispp_stat, 12 for ispf_stat, 20480 for nr3d_stat, 16800 for drc_stat0, the frame and two coefficient buffers as computed, none for the rest, all in the pool and apart |
| `IspCore.IspCore.AllocBuffers` | sdk/lib/isp_buf_addr.c:323-335 | the thirteen calls make exactly the specified allocations, stopping at a failure |
| `IspCore.IspCore.DmaAddrs` | sdk/lib/isp_buf_addr.c:337-350 | the 88 octets sent: nine addresses at their offsets, zeroes elsewhere |
| `IspCore.IspCore.AllocBufAddr` | sdk/lib/isp_buf_addr.c:291-365 | a refused pool changes nothing and fails; otherwise, if the total fits, it fails only when one of the three ioctls does, every field has its own size and a 128-aligned buffer in the pool clear of all others, and the words the driver is sent at octets 24, 28, 32, 36, 40, 60, 72, 80 and 84 are the addresses of their buffers, every other word 0 |
| `Strides.SetStrides` | sdk/lib/isp_init.c:408-423 | the eight stride registers as rows, enabled rows or low 16 bits, and no other register changed |
| `Strides.RowsAre` | sdk/lib/isp_buf_addr.c:208-209 | the allocated row is the raw stride for every width, overflow or not |
| `Strides.RowHoldsPixels` | sdk/lib/isp_buf_addr.c:208-209 | the allocated rows are the least multiples of eight octets holding ten bits a pixel, and ten bits for each of a quarter as many |
| `Strides.QuarterExactly` | sdk/lib/isp_init.c:413-421 | the quarter stride never exceeds the allocated row, and equals it if and only if, for n = w/4, 4 divides n or 8 does not divide floor(5n/4); otherwise it is 8 less |
| `Strides.SixteenDivides` | sdk/lib/isp_init.c:413-421 | a width divisible by 16 is enough |
| `Strides.NotAlways` | sdk/lib/isp_init.c:413-421 | equality fails at 104 and holds at 136, which 16 does not divide |
| `Strides.OrdinaryPictures` | sdk/lib/isp_buf_addr.c:202-222 | pictures of up to 16384 by 16384 overflow nothing, so the statements about the pool and the strides apply to them all |
| `Strides.PicturesFit` | sdk/lib/isp_init.c:408-421 | whole pictures at the programmed strides fit the two buffers, the first exactly; the second is a quarter of the lines of the allocated quarter row |

## Left out

- Request text: `header_value`, `sscanf`, URI matching and number parsing are the arbitrary function `Reading`; every theorem holds for all of them. A request names one of the six methods the server knows, or an unknown one.
- `RtspServer.ClientSlot.SendReply`: status phrases are shortened and the session description is reduced to its parameter sets and metadata line; framing, CSeq, Content-Length and the order of lines are kept.
- `Replies.ReplyWellFormed`: is about that reduced text, for the same reason; of the other lines the proof uses only that none begins with `Content-Length:`.
- Authentication: `shadow_matches`, `crypt` and the comparison of credentials are one boolean input; a refusal is one 401 reply whatever its wording.
- Send errors other than EINTR, including a full nonblocking socket: assumed not to occur, since a partial frame breaks the framing.
- `Connections.UdpDelivery`: the network between the sockets is not modelled, so datagrams arrive as sent; an address is its port only.
- The RFC 6184 receiver knows single NAL unit packets and FU-A only, which is all the server means to send; it ignores other packets and gives up a unit whose fragments are not consecutive.
- The monotonic clock is a number without a width where it is compared; the 64-bit products of timestamps wrap as in the code.
- `request_idr`, `fps`, `fcntl`, `setsockopt` and the failure paths of `rtsp_server_init`: no effect on what is proved.
- Metadata XML: arbitrary octets of at most 1200, of which the real text is one case.
- `Wire.PyInt`: signs, underscores and non-ASCII digits that Python's `int` accepts are an error in the model; the server never writes them.
- Base64 decoding: the count of pending bits grows without bound once the output is full; overflow of that C `int` (after 2^31 bits of input) is not modelled.
- `Window.IspWinParam`: inputs for which a 32-bit product, subtraction or shift leaves the word, among them all dimensions below 3, are excluded by `Searchable`; what the code does then is not modelled.
- `IspPool`: alignments that are not powers of two, for which the mask does not align.
- `AccessUnits.Load`: files without a start code, ending with a four-octet start code, or with more NAL units or slices than the tables hold make the original access memory out of bounds; they are excluded by `Loadable`. File reading and the environment are not modelled.
- `AccessUnits.Scan`: one method for the scanning loops of both loaders, told apart by a parameter; the file's octets are a value, since both loaders only read them.
- Device access, ioctls other than as success or failure, `/dev/mem`, sensor drivers, I2C, watchdog, bitrate control, and the literal register tables of `isp_init.c`.

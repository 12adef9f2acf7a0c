/** The text of the replies, and the whole TCP stream of a connection as the capture tool reads it. */
module Replies {
  import opened Bytes
  import B64 = Base64
  import opened Wire
  import opened Session

  function StatusText(code: nat): string {
    if code == 200 then "OK"
    else if code == 400 then "Bad header"
    else if code == 401 then "Authentication required"
    else if code == 404 then "Stream not found"
    else if code == 405 then "Unknown method"
    else if code == 454 then "Session ID is invalid"
    else "Internal Server Error"
  }

  lemma DigitsAreText(n: nat)
    ensures 13 !in Decimal(n) && 58 !in Decimal(n) && 32 !in Decimal(n)
  {
  }

  function Number(n: nat): (r: seq<byte>)
    ensures r == Decimal(n) && r != [] && 13 !in r
  {
    DigitsAreText(n);
    Decimal(n)
  }

  /** Lines are non-empty and free of CR whatever their parts are. */
  function L(head: string, tail: seq<byte>): Line
    requires head != "" && 13 !in tail
  {
    Ascii(head) + tail
  }

  function StatusLine(code: nat): Line {
    L("RTSP/1.0 ", Number(code) + Ascii(" ") + Ascii(StatusText(code)))
  }

  function CSeqLine(cseq: Token): Line {
    L("CSeq: ", cseq)
  }

  function LengthLine(n: nat): Line {
    L("Content-Length: ", Number(n))
  }

  const SERVER_LINE: Line := L("Server: OpenIPC.org RTSP Server/0.1", [])

  function Range(key: string, a: nat, b: nat): (r: seq<byte>)
    ensures 13 !in r
  {
    Ascii(key) + Number(a) + Ascii("-") + Number(b)
  }

  function TransportLine(tcp: bool, a: u32, b: u32, port: nat): Line {
    if tcp then L("Transport: RTP/AVP/TCP;unicast;", Range("interleaved=", a, b))
    else L("Transport: RTP/AVP/UDP;unicast;", Range("client_port=", a, b) + Range(";server_port=", port, port + 1))
  }

  /** The lines that follow the server's name. */
  function DetailLines(d: Detail): seq<Line> {
    match d
    case NoDetail => []
    case Challenge => [L("WWW-Authenticate: Basic realm=", Ascii("\"WallyWorld\""))]
    case PublicMethods => [L("Public: OPTIONS, DESCRIBE, SETUP, ", Ascii("PLAY, TEARDOWN, GET_PARAMETER"))]
    case FromNow => [L("Range: npt=now-", [])]
    case Session(tcp, a, b, port, id) =>
      [TransportLine(tcp, a, b, if port < 0 then 0 else port), L("Session: ", Number(id) + Ascii(";timeout=60"))]
    case Description(base, _, _, _) => [L("Content-Base: ", base), L("Content-Type: application/sdp", [])]
  }

  /** The part of the session description that depends on the stream: its parameter sets. */
  function Body(d: Detail): seq<byte> {
    match d
    case Description(_, sps, pps, withMetadata) =>
      Ascii("sprop-parameter-sets=") + B64.Encode(sps) + Ascii(",") + B64.Encode(pps) + CRLF
      + (if withMetadata then Ascii("a=control:metadata") + CRLF else [])
    case _ => []
  }

  function Lines(code: nat, cseq: Token, d: Detail): seq<Line> {
    [StatusLine(code), CSeqLine(cseq)]
    + (if d.Description? then [LengthLine(|Body(d)|)] else [])
    + [SERVER_LINE] + DetailLines(d)
  }

  lemma NotLength(l: seq<byte>)
    requires |l| < 2 || Lower(l[0]) != 99 || (Lower(l[1]) != 111)
    ensures !IsContentLength(l)
  {
    if |l| >= |CONTENT_LENGTH| {
      assert CONTENT_LENGTH[0] == 99 && CONTENT_LENGTH[1] == 111;
    }
  }

  lemma ContentLinesAreNotLength(base: Token)
    ensures !IsContentLength(L("Content-Base: ", base))
    ensures !IsContentLength(L("Content-Type: application/sdp", []))
  {
    assert CONTENT_LENGTH[8] == 108;
    assert L("Content-Base: ", base)[8] == Ascii("Content-Base: ")[8] == 66;
    assert L("Content-Type: application/sdp", [])[8] == Ascii("Content-Type: application/sdp")[8] == 84;
  }

  /** No other line looks like the one that announces the length. */
  lemma OthersNotLength(head: string, tail: seq<byte>)
    requires |head| >= 2 && 13 !in tail
    requires Lower(Ascii(head)[0]) != 99 || Lower(Ascii(head)[1]) != 111
    ensures !IsContentLength(L(head, tail))
  {
    NotLength(L(head, tail));
  }

  lemma DetailNotLength(d: Detail)
    ensures forall l :: l in DetailLines(d) ==> !IsContentLength(l)
  {
    hide IsContentLength;
    match d
    case NoDetail =>
    case Challenge => OthersNotLength("WWW-Authenticate: Basic realm=", Ascii("\"WallyWorld\""));
    case PublicMethods => OthersNotLength("Public: OPTIONS, DESCRIBE, SETUP, ", Ascii("PLAY, TEARDOWN, GET_PARAMETER"));
    case FromNow => OthersNotLength("Range: npt=now-", []);
    case Session(tcp, a, b, port, id) => SessionNotLength(tcp, a, b, if port < 0 then 0 else port, id);
    case Description(base, _, _, _) => ContentLinesAreNotLength(base);
  }

  lemma SessionNotLength(tcp: bool, a: u32, b: u32, port: nat, id: u32)
    ensures !IsContentLength(TransportLine(tcp, a, b, port))
    ensures !IsContentLength(L("Session: ", Number(id) + Ascii(";timeout=60")))
  {
    OthersNotLength("Session: ", Number(id) + Ascii(";timeout=60"));
    if tcp {
      OthersNotLength("Transport: RTP/AVP/TCP;unicast;", Range("interleaved=", a, b));
    } else {
      OthersNotLength("Transport: RTP/AVP/UDP;unicast;", Range("client_port=", a, b) + Range(";server_port=", port, port + 1));
    }
  }

  lemma {:induction false} NoLength(lines: seq<seq<byte>>)
    requires forall l :: l in lines ==> !IsContentLength(l)
    ensures ContentLength(lines) == Some(0)
  {
    if lines != [] {
      assert lines[0] in lines;
      NoLength(lines[1..]);
    }
  }

  lemma {:induction false} NoColon(s: seq<byte>)
    requires 58 !in s
    ensures UpToColon(s) == s
  {
    if s != [] {
      assert s[0] in s;
      NoColon(s[1..]);
    }
  }

  lemma StripDigits(d: seq<byte>)
    requires d != [] && 32 !in d
    ensures Strip([32] + d) == d
  {
    assert ([32] + d)[1..] == d;
    assert d[0] in d && d[|d| - 1] in d;
  }

  lemma LengthLineRead(n: nat)
    ensures IsContentLength(LengthLine(n))
    ensures PyInt(UpToColon(LengthLine(n)[|CONTENT_LENGTH|..])) == Some(n)
  {
    var l, d := LengthLine(n), Decimal(n);
    LengthKey();
    assert forall i :: 0 <= i < 16 ==> l[i] == Ascii("Content-Length: ")[i];
    assert l[15..] == [32] + d;
    DigitsAreText(n);
    hide LengthLine;
    NoColon([32] + d);
    StripDigits(d);
    DecimalRoundTrip(n);
  }

  lemma LengthKey()
    ensures var k := Ascii("Content-Length: ");
            |k| == 16 && |CONTENT_LENGTH| == 15 && k[15] == 32
            && forall i :: 0 <= i < 15 ==> Lower(k[i]) == CONTENT_LENGTH[i]
  {
  }

  lemma StatusLineStart(code: nat)
    ensures RTSP_SLASH <= StatusLine(code) && !IsContentLength(StatusLine(code))
  {
    var l := StatusLine(code);
    assert l[..9] == Ascii("RTSP/1.0 ");
    hide StatusLine;
    assert RTSP_SLASH <= Ascii("RTSP/1.0 ");
    NotLength(l);
  }

  lemma FixedNotLength(cseq: Token)
    ensures !IsContentLength(CSeqLine(cseq)) && !IsContentLength(SERVER_LINE)
  {
    OthersNotLength("CSeq: ", cseq);
    OthersNotLength("Server: OpenIPC.org RTSP Server/0.1", []);
  }

  /** Every reply announces its body as the capture tool expects. */
  lemma ReplyWellFormed(code: nat, cseq: Token, d: Detail)
    ensures WellFormedHead(Lines(code, cseq, d), Join(Lines(code, cseq, d)), Body(d))
  {
    hide StatusLine, CSeqLine, DetailLines, LengthLine, IsContentLength, PyInt, ContentLength, Join, RTSP_SLASH;
    var lines := Lines(code, cseq, d);
    StatusLineStart(code);
    FixedNotLength(cseq);
    DetailNotLength(d);
    if d.Description? {
      LengthLineRead(|Body(d)|);
      FirstAnnounces(lines, 2);
    } else {
      NoLength(lines);
    }
  }
}

/** The text of a reply read back: its code, CSeq, numbers and parameter sets, as a client takes them from the octets. */
module ReplyText {
  import opened Bytes
  import B64 = Base64
  import opened Wire
  import opened Session
  import opened Replies
  import S = RtspServer

  // ----- reading -----

  /** The length of the digits `s` begins with. */
  function DigitRun(s: seq<byte>): (n: nat)
    ensures n <= |s| && (forall b :: b in s[..n] ==> IsDigit(b)) && (n < |s| ==> !IsDigit(s[n]))
  {
    if s == [] || !IsDigit(s[0]) then 0
    else
      assert forall k :: 0 < k <= |s| ==> s[..k] == [s[0]] + s[1..][..k - 1];
      1 + DigitRun(s[1..])
  }

  /** The decimal numbers in a text, in order. */
  function Numbers(s: seq<byte>): seq<nat>
    decreases |s|
  {
    if s == [] then []
    else if !IsDigit(s[0]) then Numbers(s[1..])
    else [FromDigits(s[..DigitRun(s)])] + Numbers(s[DigitRun(s)..])
  }

  /** The text before the first `c`, and after it. */
  function UpTo(s: seq<byte>, c: byte): seq<byte> {
    if s == [] || s[0] == c then [] else [s[0]] + UpTo(s[1..], c)
  }

  function After(s: seq<byte>, c: byte): seq<byte> {
    if s == [] then [] else if s[0] == c then s[1..] else After(s[1..], c)
  }

  function Decoded(text: seq<byte>): seq<byte> {
    B64.FromSextets(B64.Sextets(text))
  }

  // ----- numbers -----

  predicate NoDigits(s: seq<byte>) {
    forall b :: b in s ==> !IsDigit(b)
  }

  lemma {:induction false} NumbersSkip(a: seq<byte>, s: seq<byte>)
    requires NoDigits(a)
    ensures Numbers(a + s) == Numbers(s)
    decreases |a|
  {
    if a == [] {
      assert a + s == s;
    } else {
      assert (a + s)[1..] == a[1..] + s;
      NumbersSkip(a[1..], s);
    }
  }

  lemma {:induction false} RunOf(d: seq<byte>, s: seq<byte>)
    requires (forall b :: b in d ==> IsDigit(b)) && (s == [] || !IsDigit(s[0]))
    ensures DigitRun(d + s) == |d|
    decreases |d|
  {
    if d == [] {
      assert d + s == s;
    } else {
      assert (d + s)[1..] == d[1..] + s;
      RunOf(d[1..], s);
    }
  }

  lemma NumbersTake(n: nat, s: seq<byte>)
    requires s == [] || !IsDigit(s[0])
    ensures Numbers(Number(n) + s) == [n] + Numbers(s)
  {
    var d := Decimal(n);
    RunOf(d, s);
    DecimalRoundTrip(n);
    assert (d + s)[0] == d[0];
    assert (d + s)[..|d|] == d && (d + s)[|d|..] == s;
  }

  /** A word without digits, a number, and what follows. */
  lemma WordThenNumber(word: seq<byte>, n: nat, s: seq<byte>)
    requires NoDigits(word) && (s == [] || !IsDigit(s[0]))
    ensures Numbers(word + (Number(n) + s)) == [n] + Numbers(s)
  {
    NumbersSkip(word, Number(n) + s);
    NumbersTake(n, s);
  }

  lemma NumbersNone(s: seq<byte>)
    requires NoDigits(s)
    ensures Numbers(s) == []
  {
    NumbersSkip(s, []);
    assert s + [] == s;
  }

  // ----- the lines -----

  predicate Wordy(s: string) {
    forall k :: 0 <= k < |s| ==> s[k] as int < 48 || 57 < s[k] as int < 0x100
  }

  lemma WordyHasNoDigits(s: string)
    requires Wordy(s)
    ensures NoDigits(Ascii(s))
  {
  }

  lemma NoDigitsTwo(a: seq<byte>, b: seq<byte>)
    requires NoDigits(a) && NoDigits(b)
    ensures NoDigits(a + b)
  {
  }

  lemma StatusWordy(code: nat)
    ensures Wordy(StatusText(code))
  {
    assert Wordy("OK") && Wordy("Bad header") && Wordy("Stream not found") && Wordy("Unknown method");
    assert Wordy("Authentication required") && Wordy("Session ID is invalid") && Wordy("Internal Server Error");
    hide Wordy;
  }

  lemma Version()
    ensures Ascii("RTSP/1.0 ") == Ascii("RTSP/") + (Number(1) + (Ascii(".") + (Number(0) + Ascii(" "))))
  {
  }

  lemma VersionWords()
    ensures NoDigits(Ascii("RTSP/")) && NoDigits(Ascii(".")) && NoDigits(Ascii(" "))
    ensures Ascii(".") == [46] && Ascii(" ") == [32]
  {
  }

  lemma Assoc6(a: seq<byte>, b: seq<byte>, c: seq<byte>, d: seq<byte>, e: seq<byte>, rest: seq<byte>)
    ensures (a + (b + (c + (d + e)))) + rest == a + (b + (c + (d + (e + rest))))
  {
  }

  /** Two numbers and a third, of a word each. */
  lemma ThreeNumbers(a: seq<byte>, x: nat, b: seq<byte>, y: nat, c: seq<byte>, z: nat, rest: seq<byte>)
    requires NoDigits(a) && NoDigits(b) && NoDigits(c) && NoDigits(rest) && b != [] && c != [] && rest != []
    ensures Numbers(a + (Number(x) + (b + (Number(y) + (c + (Number(z) + rest)))))) == [x, y, z]
  {
    var third := c + (Number(z) + rest);
    var second := b + (Number(y) + third);
    assert third[0] == c[0] && second[0] == b[0] && c[0] in c && b[0] in b && rest[0] in rest;
    hide Numbers, Number;
    NumbersNone(rest);
    WordThenNumber(c, z, rest);
    WordThenNumber(b, y, third);
    WordThenNumber(a, x, second);
  }

  lemma StatusTail(code: nat)
    ensures NoDigits(Ascii(" ") + Ascii(StatusText(code)))
  {
    StatusWordy(code);
    WordyHasNoDigits(StatusText(code));
    VersionWords();
    hide Ascii, StatusText;
    NoDigitsTwo(Ascii(" "), Ascii(StatusText(code)));
  }

  /** The protocol version and the code. */
  lemma StatusNumbers(code: nat)
    ensures Numbers(StatusLine(code)) == [1, 0, code]
  {
    hide *;
    var reason := Ascii(" ") + Ascii(StatusText(code));
    StatusTail(code);
    Version();
    VersionWords();
    StatusIs(code);
    Assoc6(Ascii("RTSP/"), Number(1), Ascii("."), Number(0), Ascii(" "), Number(code) + reason);
    ThreeNumbers(Ascii("RTSP/"), 1, Ascii("."), 0, Ascii(" "), code, reason);
  }

  lemma StatusIs(code: nat)
    ensures StatusLine(code) == Ascii("RTSP/1.0 ") + (Number(code) + (Ascii(" ") + Ascii(StatusText(code))))
  {
    hide Ascii, Number, StatusText;
    assert Number(code) + Ascii(" ") + Ascii(StatusText(code)) == Number(code) + (Ascii(" ") + Ascii(StatusText(code)));
  }

  lemma Dash()
    ensures Ascii("-") == [45] && NoDigits(Ascii("-"))
  {
  }

  lemma RangeNumbers(word: seq<byte>, a: nat, b: nat, s: seq<byte>)
    requires NoDigits(word) && (s == [] || !IsDigit(s[0]))
    ensures Numbers(word + (Number(a) + (Ascii("-") + (Number(b) + s)))) == [a, b] + Numbers(s)
  {
    Dash();
    var dash := Ascii("-");
    assert (dash + (Number(b) + s))[0] == dash[0] && !IsDigit(dash[0]);
    hide Numbers, Number, Ascii, NoDigits;
    WordThenNumber(dash, b, s);
    WordThenNumber(word, a, dash + (Number(b) + s));
  }

  lemma RangeIs(key: string, a: nat, b: nat, before: seq<byte>, s: seq<byte>)
    ensures before + Range(key, a, b) + s == (before + Ascii(key)) + (Number(a) + (Ascii("-") + (Number(b) + s)))
  {
  }

  lemma RangeRead(before: seq<byte>, key: string, a: nat, b: nat, s: seq<byte>)
    requires NoDigits(before) && Wordy(key) && (s == [] || !IsDigit(s[0]))
    ensures Numbers(before + Range(key, a, b) + s) == [a, b] + Numbers(s)
  {
    WordyHasNoDigits(key);
    NoDigitsTwo(before, Ascii(key));
    RangeIs(key, a, b, before, s);
    hide Numbers, Number, Ascii, NoDigits, Range;
    RangeNumbers(before + Ascii(key), a, b, s);
  }

  lemma TransportKeys()
    ensures Wordy("interleaved=") && Wordy("client_port=") && Wordy(";server_port=")
  {
  }

  lemma TransportHeads()
    ensures Wordy("Transport: RTP/AVP/TCP;unicast;") && Wordy("Transport: RTP/AVP/UDP;unicast;")
  {
  }

  /** The channels of an interleaved track. */
  lemma TcpNumbers(a: u32, b: u32, port: nat)
    ensures Numbers(TransportLine(true, a, b, port)) == [a as nat, b]
  {
    TransportKeys();
    TransportHeads();
    WordyHasNoDigits("Transport: RTP/AVP/TCP;unicast;");
    var head, range := Ascii("Transport: RTP/AVP/TCP;unicast;"), Range("interleaved=", a, b);
    assert TransportLine(true, a, b, port) == head + range + [];
    hide Wordy, Ascii, Range, Numbers, TransportLine, NoDigits;
    RangeRead(head, "interleaved=", a, b, []);
    NoneOfNone();
  }

  lemma NoneOfNone()
    ensures Numbers([]) == []
  {
  }

  lemma ServerKey()
    ensures Ascii(";server_port=") != [] && Ascii(";server_port=")[0] == 59
  {
  }

  lemma UdpIs(a: u32, b: u32, port: nat)
    ensures TransportLine(false, a, b, port) ==
            Ascii("Transport: RTP/AVP/UDP;unicast;") + Range("client_port=", a, b) + Range(";server_port=", port, port + 1)
    ensures Ascii(";server_port=") <= Range(";server_port=", port, port + 1)
  {
    hide Number, Ascii;
  }

  /** The client's ports and the server's. */
  lemma UdpNumbers(a: u32, b: u32, port: nat)
    ensures Numbers(TransportLine(false, a, b, port)) == [a as nat, b, port, port + 1]
  {
    hide *;
    TransportKeys();
    TransportHeads();
    WordyHasNoDigits("Transport: RTP/AVP/UDP;unicast;");
    ServerKey();
    UdpIs(a, b, port);
    var server := Range(";server_port=", port, port + 1);
    assert [] + server + [] == server && server[0] == 59;
    NotDigit();
    RangeRead(Ascii("Transport: RTP/AVP/UDP;unicast;"), "client_port=", a, b, server);
    NoDigitsNone();
    RangeRead([], ";server_port=", port, port + 1, []);
    NoneOfNone();
  }

  lemma NotDigit()
    ensures !IsDigit(59)
  {
  }

  lemma NoDigitsNone()
    ensures NoDigits([])
  {
  }

  lemma SessionKeys()
    ensures Wordy("Session: ") && Wordy(";timeout=") && Ascii(";timeout=")[0] == 59
    ensures Ascii(";timeout=60") == Ascii(";timeout=") + (Number(60) + [])
  {
    assert Decimal(60) == [54, 48];
  }

  /** The session's number and its timeout. */
  lemma SessionNumbers(id: u32)
    ensures Numbers(L("Session: ", Number(id) + Ascii(";timeout=60"))) == [id as nat, 60]
  {
    SessionKeys();
    WordyHasNoDigits("Session: ");
    WordyHasNoDigits(";timeout=");
    var tail := Ascii(";timeout=") + (Number(60) + []);
    assert L("Session: ", Number(id) + tail) == Ascii("Session: ") + (Number(id) + tail);
    assert tail[0] == Ascii(";timeout=")[0];
    hide Wordy, Ascii, Number, Numbers, NoDigits, L;
    WordThenNumber(Ascii(";timeout="), 60, []);
    WordThenNumber(Ascii("Session: "), id, tail);
    NoneOfNone();
  }

  // ----- the body -----

  lemma {:induction false} UpToIs(a: seq<byte>, c: byte, s: seq<byte>)
    requires c !in a
    ensures UpTo(a + [c] + s, c) == a && After(a + [c] + s, c) == s
    decreases |a|
  {
    var t := a + [c] + s;
    if a == [] {
      assert t[0] == c && t[1..] == s;
    } else {
      assert t[1..] == a[1..] + [c] + s && t[0] == a[0];
      UpToIs(a[1..], c, s);
    }
  }

  /** Letters, digits and the like only. */
  lemma {:induction false} EncodedLetters(b: seq<byte>)
    ensures 44 !in B64.Encode(b) && 13 !in B64.Encode(b)
    decreases |b|
  {
    if b != [] {
      EncodedLetters(B64.Tail(b));
    }
  }

  lemma SetsKey()
    ensures Ascii("sprop-parameter-sets=") == Ascii("sprop-parameter-sets") + [61] && 61 !in Ascii("sprop-parameter-sets")
    ensures 44 !in Ascii("sprop-parameter-sets") && Ascii(",") == [44]
  {
  }

  /** The body of a description, read: its two parameter sets and what follows them. */
  lemma SetsRead(base: Token, sps: seq<byte>, pps: seq<byte>, withMetadata: bool)
    ensures var body := Body(Description(base, sps, pps, withMetadata));
            && Decoded(UpTo(After(body, 61), 44)) == sps
            && Decoded(UpTo(After(After(body, 61), 44), 13)) == pps
            && After(body, 13) == [10] + if withMetadata then Ascii("a=control:metadata") + CRLF else []
  {
    var key, x, y := Ascii("sprop-parameter-sets"), B64.Encode(sps), B64.Encode(pps);
    var more := if withMetadata then Ascii("a=control:metadata") + CRLF else [];
    var body := Body(Description(base, sps, pps, withMetadata));
    SetsKey();
    EncodedLetters(sps);
    EncodedLetters(pps);
    B64.RoundTrip(sps);
    B64.RoundTrip(pps);
    hide Ascii, B64.Encode, B64.FromSextets, B64.Sextets, UpTo, After;
    var line := key + [61] + x + [44] + y;
    assert body == key + [61] + (x + [44] + (y + [13] + ([10] + more)));
    assert body == line + [13] + ([10] + more);
    UpToIs(key, 61, x + [44] + (y + [13] + ([10] + more)));
    UpToIs(x, 44, y + [13] + ([10] + more));
    UpToIs(y, 13, [10] + more);
    UpToIs(line, 13, [10] + more);
  }

  // ----- the reply -----

  /** The lines and body of a reply tell its code, CSeq and detail. */
  predicate Tells(lines: seq<seq<byte>>, body: seq<byte>, code: nat, cseq: Token, d: Detail) {
    && |lines| >= 3 && Numbers(lines[0]) == [1, 0, code] && lines[1] == Ascii("CSeq: ") + cseq
    && match d
       case NoDetail => |lines| == 3 && body == []
       case Challenge => |lines| == 4 && lines[3] == Ascii("WWW-Authenticate: Basic realm=") + Ascii("\"WallyWorld\"") && body == []
       case PublicMethods =>
         && |lines| == 4 && body == []
         && lines[3] == Ascii("Public: OPTIONS, DESCRIBE, SETUP, ") + Ascii("PLAY, TEARDOWN, GET_PARAMETER")
       case FromNow => |lines| == 4 && lines[3] == Ascii("Range: npt=now-") && body == []
       case Session(tcp, a, b, port, id) =>
         && |lines| == 5 && body == []
         && Ascii(if tcp then "Transport: RTP/AVP/TCP;" else "Transport: RTP/AVP/UDP;") <= lines[3]
         && (var p := if port < 0 then 0 else port;
             Numbers(lines[3]) == [a as nat, b] + if tcp then [] else [p, p + 1])
         && Ascii("Session: ") <= lines[4] && Numbers(lines[4]) == [id as nat, 60]
       case Description(base, sps, pps, withMetadata) =>
         && |lines| == 6 && lines[4] == Ascii("Content-Base: ") + base && lines[5] == Ascii("Content-Type: application/sdp")
         && Decoded(UpTo(After(body, 61), 44)) == sps
         && Decoded(UpTo(After(After(body, 61), 44), 13)) == pps
         && After(body, 13) == [10] + if withMetadata then Ascii("a=control:metadata") + CRLF else []
  }

  lemma TransportPrefix(tcp: bool, a: u32, b: u32, port: nat)
    ensures Ascii(if tcp then "Transport: RTP/AVP/TCP;" else "Transport: RTP/AVP/UDP;") <= TransportLine(tcp, a, b, port)
  {
    hide Range;
    var l := TransportLine(tcp, a, b, port);
    if tcp {
      assert Ascii("Transport: RTP/AVP/TCP;") <= Ascii("Transport: RTP/AVP/TCP;unicast;") <= l;
    } else {
      assert Ascii("Transport: RTP/AVP/UDP;") <= Ascii("Transport: RTP/AVP/UDP;unicast;") <= l;
    }
  }

  lemma SessionTells(lines: seq<seq<byte>>, tcp: bool, a: u32, b: u32, port: int, id: u32)
    requires |lines| == 5 && lines[3..] == DetailLines(Session(tcp, a, b, port, id))
    ensures Ascii(if tcp then "Transport: RTP/AVP/TCP;" else "Transport: RTP/AVP/UDP;") <= lines[3]
    ensures var p := if port < 0 then 0 else port;
            Numbers(lines[3]) == [a as nat, b] + if tcp then [] else [p, p + 1]
    ensures Ascii("Session: ") <= lines[4] && Numbers(lines[4]) == [id as nat, 60]
  {
    var p := if port < 0 then 0 else port;
    hide TransportLine, Numbers, Ascii, Number;
    assert lines[3] == lines[3..][0] && lines[4] == lines[3..][1];
    assert Ascii("Session: ") <= lines[4];
    hide L;
    TransportPrefix(tcp, a, b, p);
    if tcp {
      TcpNumbers(a, b, p);
    } else {
      UdpNumbers(a, b, p);
    }
    SessionNumbers(id);
  }

  lemma LinesTell(code: nat, cseq: Token, d: Detail)
    ensures Tells(Lines(code, cseq, d), Body(d), code, cseq, d)
  {
    var lines := Lines(code, cseq, d);
    StatusNumbers(code);
    hide Numbers, Ascii, StatusLine;
    match d
    case Session(tcp, a, b, port, id) => SessionTells(lines, tcp, a, b, port, id);
    case Description(base, sps, pps, withMetadata) => SetsRead(base, sps, pps, withMetadata);
    case _ =>
  }

  /** What a client reads from the octets of a reply, with anything after them: the same reply. */
  lemma ReplyRead(code: nat, cseq: Token, d: Detail, rest: seq<byte>)
    ensures match Demux(S.TcpOctets(Reply(code, cseq, d)) + rest)
            case Got(Rtsp(head, body), after) => after == rest && Tells(SplitLines(head), body, code, cseq, d)
            case _ => false
  {
    hide Tells, Lines, Body;
    LinesTell(code, cseq, d);
    ReplyWellFormed(code, cseq, d);
    var lines := Lines(code, cseq, d);
    SplitJoin(lines);
    assert WellFormed(Rtsp(Join(lines), Body(d)));
    DemuxEncode(Rtsp(Join(lines), Body(d)), rest);
  }
}

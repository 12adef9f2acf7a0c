/** The TCP byte stream: RTSP replies and interleaved frames (RFC 2326, section 10.12) as the server
    writes them, and the demultiplexer of the capture tool that reads them back. */
module Wire {
  import opened Bytes
  import opened Framing

  const CRLF: seq<byte> := [13, 10]
  const DOLLAR: byte := 36

  /** A text without CR; one inside would come out as a question mark. */
  function Ascii(s: string): (r: seq<byte>)
    ensures |r| == |s| && 13 !in r
  {
    seq(|s|, i requires 0 <= i < |s| => if s[i] as int % 0x100 == 13 then 63 else s[i] as int % 0x100)
  }

  type Line = l: seq<byte> | l != [] && 13 !in l witness [65]

  /** One unit on the wire. `head` is a reply up to, and without, its blank line. */
  datatype Item = Frame(channel: byte, data: seq<byte>) | Rtsp(head: seq<byte>, body: seq<byte>)

  function Encode(x: Item): seq<byte>
    requires x.Frame? ==> |x.data| < 0x1_0000
  {
    match x
    case Frame(ch, data) => [DOLLAR, ch] + BE16(|data|) + data
    case Rtsp(head, body) => head + CRLF + CRLF + body
  }

  // ----- text -----

  function Join(lines: seq<Line>): seq<byte> {
    if lines == [] then []
    else if |lines| == 1 then lines[0]
    else lines[0] + CRLF + Join(lines[1..])
  }

  /** The position of the first CRLF from `i` on. */
  function FindCrlf(s: seq<byte>, i: nat): (r: Option<nat>)
    requires i <= |s|
    ensures r.Some? ==> i <= r.value && r.value + 2 <= |s| && s[r.value] == 13 && s[r.value + 1] == 10
                        && forall j :: i <= j < r.value ==> !(s[j] == 13 && s[j + 1] == 10)
    ensures r.None? ==> forall j :: i <= j < |s| - 1 ==> !(s[j] == 13 && s[j + 1] == 10)
    decreases |s| - i
  {
    if i + 2 > |s| then None
    else if s[i] == 13 && s[i + 1] == 10 then Some(i)
    else FindCrlf(s, i + 1)
  }

  /** `head.split('\r\n')` */
  function SplitLines(s: seq<byte>): seq<seq<byte>>
    decreases |s|
  {
    match FindCrlf(s, 0)
    case None => [s]
    case Some(k) => [s[..k]] + SplitLines(s[k + 2..])
  }

  lemma {:induction false} SplitJoin(lines: seq<Line>)
    requires lines != []
    ensures SplitLines(Join(lines)) == lines
  {
    var s := Join(lines);
    var l := lines[0];
    if |lines| == 1 {
      assert FindCrlf(s, 0).None?;
    } else {
      assert s[..|l|] == l && s[|l| + 2..] == Join(lines[1..]);
      assert s[|l|] == 13 && s[|l| + 1] == 10;
      assert forall j :: 0 <= j < |l| ==> s[j] == l[j];
      assert FindCrlf(s, 0) == Some(|l|);
      SplitJoin(lines[1..]);
    }
  }

  /** The blank line after a head made of non-empty CR-free lines is the first one there is. */
  lemma {:induction false} FirstBlankLine(lines: seq<Line>, tail: seq<byte>)
    requires lines != []
    ensures Find(Join(lines) + CRLF + CRLF + tail) == Some(|Join(lines)|)
  {
    var s := Join(lines) + CRLF + CRLF + tail;
    var n := |Join(lines)|;
    assert TerminatorAt(s, n);
    forall j | 0 <= j < n ensures !TerminatorAt(s, j) {
      NoBlankLine(lines, tail, j);
    }
    FindUnique(s, n);
  }

  lemma {:induction false} NoBlankLine(lines: seq<Line>, tail: seq<byte>, j: nat)
    requires lines != [] && j < |Join(lines)|
    ensures !TerminatorAt(Join(lines) + CRLF + CRLF + tail, j)
  {
    var l, s := lines[0], Join(lines) + CRLF + CRLF + tail;
    if j < |l| {
      assert s[j] == l[j];
    } else if j < |l| + 2 {
      assert s[|l| + 2] == lines[1][0];
    } else {
      var s' := Join(lines[1..]) + CRLF + CRLF + tail;
      assert s == l + CRLF + s';
      NoBlankLine(lines[1..], tail, j - |l| - 2);
      assert TerminatorAt(s, j) ==> TerminatorAt(s', j - |l| - 2);
    }
  }

  // ----- numbers -----

  predicate IsDigit(b: byte) {
    48 <= b <= 57
  }

  /** `%d` and `%u` */
  function Decimal(n: nat): (r: seq<byte>)
    ensures r != [] && forall b :: b in r ==> IsDigit(b)
  {
    if n < 10 then [48 + n] else Decimal(n / 10) + [48 + n % 10]
  }

  function FromDigits(s: seq<byte>): nat
    requires forall b :: b in s ==> IsDigit(b)
  {
    if s == [] then 0 else assert IsDigit(s[|s| - 1]); 10 * FromDigits(s[..|s| - 1]) + (s[|s| - 1] as int - 48)
  }

  lemma {:induction false} DecimalRoundTrip(n: nat)
    ensures FromDigits(Decimal(n)) == n
  {
    if n < 10 {
      assert FromDigits([]) == 0;
      assert Decimal(n)[..0] == [];
    } else {
      DecimalRoundTrip(n / 10);
      assert Decimal(n)[..|Decimal(n)| - 1] == Decimal(n / 10);
    }
  }

  function Strip(s: seq<byte>): (r: seq<byte>)
    decreases |s|
  {
    if s == [] then []
    else if s[0] == 32 then Strip(s[1..])
    else if s[|s| - 1] == 32 then Strip(s[..|s| - 1])
    else s
  }

  /** `int(text)` of a non-negative decimal with blanks around it; anything else is an error. */
  function PyInt(s: seq<byte>): Option<nat> {
    var t := Strip(s);
    if t != [] && forall b :: b in t ==> IsDigit(b) then Some(FromDigits(t)) else None
  }

  function Lower(b: byte): byte {
    if 65 <= b <= 90 then b + 32 else b
  }

  const CONTENT_LENGTH: seq<byte> := Ascii("content-length:")

  predicate IsContentLength(l: seq<byte>) {
    |l| >= |CONTENT_LENGTH| && forall i :: 0 <= i < |CONTENT_LENGTH| ==> Lower(l[i]) == CONTENT_LENGTH[i]
  }

  /** The text up to the next colon. */
  function UpToColon(s: seq<byte>): (r: seq<byte>)
    ensures r <= s
  {
    if s == [] || s[0] == 58 then [] else [s[0]] + UpToColon(s[1..])
  }

  /** The announced body length: 0 when no line announces one, an error when it is not a number. */
  function ContentLength(lines: seq<seq<byte>>): Option<nat> {
    if lines == [] then Some(0)
    else if IsContentLength(lines[0]) then PyInt(UpToColon(lines[0][|CONTENT_LENGTH|..]))
    else ContentLength(lines[1..])
  }

  /** The first line that announces a length, in any letter case, decides it. */
  lemma {:induction false} FirstAnnounces(lines: seq<seq<byte>>, k: nat)
    requires k < |lines| && forall j :: 0 <= j < k ==> !IsContentLength(lines[j])
    requires IsContentLength(lines[k])
    ensures ContentLength(lines) == PyInt(UpToColon(lines[k][|CONTENT_LENGTH|..]))
    decreases k
  {
    hide IsContentLength, PyInt;
    if k > 0 {
      assert forall j :: 0 <= j < k - 1 ==> lines[1..][j] == lines[j + 1];
      FirstAnnounces(lines[1..], k - 1);
    }
  }

  /** `b` is the small letter `a`, or its capital. */
  predicate SameLetter(a: byte, b: byte) {
    b == a || (97 <= a <= 122 && b as int == a as int - 32)
  }

  lemma AnyCase(l: seq<byte>)
    ensures IsContentLength(l) <==>
            |l| >= 15 && forall i :: 0 <= i < 15 ==> SameLetter(Ascii("content-length:")[i], l[i])
  {
    LengthText();
    hide CONTENT_LENGTH, Ascii;
    forall i | 0 <= i < 15 && i < |l|
      ensures Lower(l[i]) == CONTENT_LENGTH[i] <==> SameLetter(CONTENT_LENGTH[i], l[i])
    {
    }
  }

  lemma LengthText()
    ensures CONTENT_LENGTH == Ascii("content-length:") && |CONTENT_LENGTH| == 15
    ensures forall i :: 0 <= i < 15 ==> !(65 <= CONTENT_LENGTH[i] <= 90) && CONTENT_LENGTH[i] < 123
  {
  }

  // ----- demultiplexing -----

  datatype Demuxed = Got(item: Item, rest: seq<byte>) | Eof | BadLength

  const RTSP_SLASH: seq<byte> := [82, 84, 83, 80, 47]

  /** What `next_message` makes of a connection that delivers `s` and is then closed. */
  function Demux(s: seq<byte>): (r: Demuxed)
    ensures r.Got? ==> |r.rest| < |s|
  {
    if |s| >= 1 && s[0] == DOLLAR then
      if |s| < 4 || |s| < 4 + FromBE16(s[2..4]) then Eof
      else var n := FromBE16(s[2..4]); Got(Frame(s[1], s[4..4 + n]), s[4 + n..])
    else if RTSP_SLASH <= s then
      match Find(s)
      case None => Eof
      case Some(k) => DemuxReply(s[..k], s[k + 4..])
    else Eof
  }

  function DemuxReply(head: seq<byte>, rest: seq<byte>): (r: Demuxed)
    ensures r.Got? ==> |r.rest| <= |rest|
  {
    match ContentLength(SplitLines(head))
    case None => BadLength
    case Some(n) => if |rest| < n then Eof else Got(Rtsp(head, rest[..n]), rest[n..])
  }

  /** A frame is a dollar sign, a channel, a length of two octets and that many more; a connection that closes
      before they have come, before a reply's blank line or without either beginning ends there. */
  lemma DemuxExactly(s: seq<byte>)
    ensures s != [] && s[0] == 36 ==>
              Demux(s) == if |s| >= 4 && |s| >= 4 + 256 * s[2] as int + s[3] as int
                          then var end := 4 + 256 * s[2] as int + s[3] as int; Got(Frame(s[1], s[4..end]), s[end..])
                          else Eof
    ensures s == [] || (s[0] != 36 && !(Ascii("RTSP/") <= s)) ==> Demux(s) == Eof
    ensures s != [] && s[0] != 36 && Find(s).None? ==> Demux(s) == Eof
  {
    assert Ascii("RTSP/") == RTSP_SLASH;
    if |s| >= 4 {
      assert FromBE16(s[2..4]) as int == 256 * s[2] as int + s[3] as int;
    }
    hide FromBE16, Find, DemuxReply;
  }

  /** All messages up to the first that cannot be completed. */
  function DemuxAll(s: seq<byte>): seq<Item>
    decreases |s|
  {
    match Demux(s)
    case Got(x, rest) => [x] + DemuxAll(rest)
    case _ => []
  }

  /** A reply is well formed when it begins `RTSP/` and announces its body. */
  ghost predicate WellFormed(x: Item) {
    match x
    case Frame(_, data) => |data| < 0x1_0000
    case Rtsp(head, body) =>
      exists lines: seq<Line> :: WellFormedHead(lines, head, body)
  }

  predicate WellFormedHead(lines: seq<Line>, head: seq<byte>, body: seq<byte>) {
    lines != [] && head == Join(lines) && RTSP_SLASH <= lines[0] && ContentLength(lines) == Some(|body|)
  }

  lemma DemuxEncode(x: Item, tail: seq<byte>)
    requires WellFormed(x)
    ensures Demux(Encode(x) + tail) == Got(x, tail)
  {
    var s := Encode(x) + tail;
    match x
    case Frame(ch, data) =>
      BE16RoundTrip(|data|);
      assert s[2..4] == BE16(|data|);
      assert s[4..4 + |data|] == data && s[4 + |data|..] == tail;
    case Rtsp(head, body) =>
      var lines: seq<Line> :| WellFormedHead(lines, head, body);
      assert s == head + CRLF + CRLF + (body + tail);
      FirstBlankLine(lines, body + tail);
      SplitJoin(lines);
      HeadPrefix(lines);
      assert RTSP_SLASH <= s;
      assert s[..|head|] == head && s[|head| + 4..] == body + tail;
      assert (body + tail)[..|body|] == body && (body + tail)[|body|..] == tail;
  }

  lemma HeadPrefix(lines: seq<Line>)
    requires lines != []
    ensures lines[0] <= Join(lines)
  {
  }

  ghost function EncodeAll(xs: seq<Item>): seq<byte>
    requires forall x :: x in xs ==> WellFormed(x)
  {
    if xs == [] then [] else assert WellFormed(xs[0]); Encode(xs[0]) + EncodeAll(xs[1..])
  }

  /** Whatever mix of replies and frames the server writes, the demultiplexer reads exactly that. */
  lemma {:induction false} WireRoundTrip(xs: seq<Item>)
    requires forall x :: x in xs ==> WellFormed(x)
    ensures DemuxAll(EncodeAll(xs)) == xs
  {
    if xs != [] {
      DemuxEncode(xs[0], EncodeAll(xs[1..]));
      WireRoundTrip(xs[1..]);
    }
  }
}

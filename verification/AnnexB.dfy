/** The byte-stream format of section B.1 of ITU-T H.264: two splitters, a stripper, and the access units. */
module AnnexB {
  import opened Bytes

  // ----- start codes -----

  /** The length of the start code at `i`, or 0. */
  function Code(b: seq<byte>, i: nat): (sc: nat)
    requires i + 3 < |b|
    ensures sc == 0 || sc == 3 || sc == 4
  {
    if b[i] == 0 && b[i + 1] == 0 && b[i + 2] == 1 then 3
    else if b[i] == 0 && b[i + 1] == 0 && b[i + 2] == 0 && b[i + 3] == 1 then 4
    else 0
  }

  /** Where a start code is, and how long. */
  datatype Mark = Mark(at: nat, sc: nat)

  /** The start codes a scan from `i` comes upon. */
  function Marks(b: seq<byte>, i: nat): (ms: seq<Mark>)
    ensures forall k | 0 <= k < |ms| :: i <= ms[k].at && ms[k].at + 3 < |b| && ms[k].sc == Code(b, ms[k].at) > 0
    ensures forall j, k | 0 <= j < k < |ms| :: ms[j].at + ms[j].sc <= ms[k].at
    decreases |b| - i
  {
    if i + 3 >= |b| then []
    else if Code(b, i) == 0 then Marks(b, i + 1)
    else [Mark(i, Code(b, i))] + Marks(b, i + Code(b, i))
  }

  /** One of the start codes ends at `e`. */
  predicate SomeEndsAt(ms: seq<Mark>, e: nat) {
    exists k :: 0 <= k < |ms| && ms[k].at + ms[k].sc == e
  }

  /** The octets 0, 0, 1 up to `e`. */
  predicate ZeroZeroOne(b: seq<byte>, e: nat) {
    3 <= e <= |b| && b[e - 3] == 0 && b[e - 2] == 0 && b[e - 1] == 1
  }

  /** A scan from `i` finds a start code ending at `e` exactly when the octets say so and one more octet
      follows or one more zero precedes. */
  lemma {:induction false} MarksExactly(b: seq<byte>, i: nat, e: nat)
    ensures SomeEndsAt(Marks(b, i), e) <==> Ends(b, i, e)
    decreases |b| - i
  {
    if i + 3 < |b| {
      var sc := Code(b, i);
      EndsLater(b, i, e);
      if sc == 0 {
        MarksExactly(b, i + 1, e);
      } else {
        MarksExactly(b, i + sc, e);
        EndsCons(Mark(i, sc), Marks(b, i + sc), e);
      }
    }
  }

  predicate Ends(b: seq<byte>, i: nat, e: nat) {
    i + 3 <= e && ZeroZeroOne(b, e) && (e < |b| || (i + 4 <= e && b[e - 4] == 0))
  }

  lemma EndsLater(b: seq<byte>, i: nat, e: nat)
    requires i + 3 < |b|
    ensures var sc := Code(b, i);
            Ends(b, i, e) <==> if sc == 0 then Ends(b, i + 1, e) else e == i + sc || Ends(b, i + sc, e)
  {
  }

  lemma EndsCons(m: Mark, ms: seq<Mark>, e: nat)
    ensures SomeEndsAt([m] + ms, e) <==> m.at + m.sc == e || SomeEndsAt(ms, e)
  {
    var all := [m] + ms;
    if m.at + m.sc == e {
      assert all[0].at + all[0].sc == e;
    } else if k :| 0 <= k < |ms| && ms[k].at + ms[k].sc == e {
      assert all[k + 1] == ms[k];
    }
  }

  /** It takes in a zero in front of those three, if the scan has not passed it. */
  lemma {:induction false} MarkLength(b: seq<byte>, i: nat, k: nat)
    requires k < |Marks(b, i)|
    ensures Long(b, i, Marks(b, i)[k])
    decreases |b| - i
  {
    if Code(b, i) == 0 {
      hide Long;
      MarkLength(b, i + 1, k);
      LongLater(b, i, Marks(b, i)[k]);
    } else if k > 0 {
      hide Long;
      MarkLength(b, i + Code(b, i), k - 1);
      LongLater(b, i, Marks(b, i)[k]);
    }
  }

  predicate Long(b: seq<byte>, i: nat, m: Mark) {
    var e := m.at + m.sc;
    i + 3 <= e <= |b| && m.sc == if e >= i + 4 && b[e - 4] == 0 then 4 else 3
  }

  lemma LongLater(b: seq<byte>, i: nat, m: Mark)
    requires i + 3 < |b| && i <= m.at && m.at + 3 < |b| && m.sc == Code(b, m.at) > 0
    requires Long(b, i + if Code(b, i) == 0 then 1 else Code(b, i), m)
    ensures Long(b, i, m)
  {
  }

  /** `nal_t`: an offset and a length. */
  datatype Span = Span(p: nat, len: nat)

  function Octets(b: seq<byte>, s: Span): seq<byte>
    requires s.p + s.len <= |b|
  {
    b[s.p..s.p + s.len]
  }

  /** Where the NAL of the `k`-th start code ends. */
  function End(b: seq<byte>, ms: seq<Mark>, k: nat): nat
    requires k < |ms|
  {
    if k + 1 < |ms| then ms[k + 1].at else |b|
  }

  /** The NALs of a stream as `replay` keeps them: without their start codes. */
  function Nals(b: seq<byte>): (s: seq<Span>)
    ensures |s| == |Marks(b, 0)|
  {
    var ms := Marks(b, 0);
    seq(|ms|, k requires 0 <= k < |ms| =>
      assert ms[k].at + 3 < |b| && (k + 1 < |ms| ==> ms[k].at + ms[k].sc <= ms[k + 1].at);
      Span(ms[k].at + ms[k].sc, End(b, ms, k) - ms[k].at - ms[k].sc))
  }

  /** The NALs of a stream as `fake_mpi` keeps them: with their start codes. */
  function Coded(b: seq<byte>): (s: seq<Span>)
    ensures |s| == |Marks(b, 0)|
  {
    var ms := Marks(b, 0);
    seq(|ms|, k requires 0 <= k < |ms| =>
      assert ms[k].at + 3 < |b| && (k + 1 < |ms| ==> ms[k].at + ms[k].sc <= ms[k + 1].at);
      Span(ms[k].at, End(b, ms, k) - ms[k].at))
  }

  lemma NalInside(b: seq<byte>, k: nat)
    requires k < |Marks(b, 0)|
    ensures Nals(b)[k].p + Nals(b)[k].len == Coded(b)[k].p + Coded(b)[k].len == End(b, Marks(b, 0), k) <= |b|
  {
    var m := Marks(b, 0)[k];
    assert m.at + 3 < |b| && m.sc == Code(b, m.at);
    hide Marks;
  }

  function Payloads(b: seq<byte>): seq<seq<byte>> {
    var s := Nals(b);
    seq(|s|, k requires 0 <= k < |s| => NalInside(b, k); Octets(b, s[k]))
  }

  // ----- splitting inverts serialization -----

  predicate HasCode(n: seq<byte>) {
    exists i :: 0 <= i < |n| - 2 && n[i] == 0 && n[i + 1] == 0 && n[i + 2] == 1
  }

  /** A NAL that the format can carry as it is. */
  predicate Plain(n: seq<byte>) {
    |n| > 0 && n[|n| - 1] != 0 && !HasCode(n)
  }

  /** A NAL and the kind of start code to put before it. */
  datatype Unit = Unit(long: bool, nal: seq<byte>)

  function StartCode(long: bool): seq<byte> {
    if long then [0, 0, 0, 1] else [0, 0, 1]
  }

  function Serialize(units: seq<Unit>): seq<byte>
    decreases |units|
  {
    if units == [] then [] else StartCode(units[0].long) + units[0].nal + Serialize(units[1..])
  }

  function NalsOf(units: seq<Unit>): seq<seq<byte>> {
    seq(|units|, k requires 0 <= k < |units| => units[k].nal)
  }

  /** Nothing at `i`, inside a plain NAL that a start code or the end of the stream follows, looks like a start code. */
  lemma NoCodeInside(b: seq<byte>, from: nat, to: nat, i: nat)
    requires from <= i < to <= |b| && i + 3 < |b| && Plain(b[from..to])
    ensures Code(b, i) == 0
  {
    var n := b[from..to];
    assert b[to - 1] == n[to - 1 - from];
    if i + 2 < to {
      assert n[i - from] == b[i] && n[i + 1 - from] == b[i + 1] && n[i + 2 - from] == b[i + 2];
    }
    if i + 3 < to {
      var j := i + 1 - from;
      assert n[j] == b[i + 1] && n[j + 1] == b[i + 2] && n[j + 2] == b[i + 3];
    }
  }

  lemma {:induction false} SkipNal(b: seq<byte>, from: nat, to: nat, i: nat)
    requires from <= i <= to <= |b| && from < to && Plain(b[from..to])
    ensures Marks(b, i) == Marks(b, to)
    decreases |b| - i
  {
    hide Plain, HasCode, Code;
    if i < to && i + 3 < |b| {
      NoCodeInside(b, from, to, i);
      SkipNal(b, from, to, i + 1);
    }
  }

  /** Where the serialized units put their start codes. */
  function Places(units: seq<Unit>, i: nat): seq<Mark>
    decreases |units|
  {
    if units == [] then [] else
    var sc := |StartCode(units[0].long)|;
    [Mark(i, sc)] + Places(units[1..], i + sc + |units[0].nal|)
  }

  /** The stream from `i` on is the serialized units. */
  predicate Follows(b: seq<byte>, i: nat, units: seq<Unit>) {
    i <= |b| && b[i..] == Serialize(units)
  }

  function Next(i: nat, u: Unit): nat {
    i + |StartCode(u.long)| + |u.nal|
  }

  lemma FollowsFirst(b: seq<byte>, i: nat, units: seq<Unit>)
    requires units != [] && Follows(b, i, units)
    ensures var u := units[0]; var from := i + |StartCode(u.long)|;
            && Next(i, u) <= |b| && b[i..from] == StartCode(u.long) && b[from..Next(i, u)] == u.nal
            && Follows(b, Next(i, u), units[1..])
  {
    Pieces(b, i, StartCode(units[0].long), units[0].nal, Serialize(units[1..]));
  }

  lemma FollowsNone(b: seq<byte>, i: nat)
    requires Follows(b, i, [])
    ensures i == |b| && Marks(b, i) == []
  {
  }

  /** A scan of a stream that ends with the serialized units finds exactly their start codes. */
  lemma {:induction false} MarksOfSerialized(b: seq<byte>, i: nat, units: seq<Unit>)
    requires Follows(b, i, units) && forall u | u in units :: Plain(u.nal)
    ensures Marks(b, i) == Places(units, i)
    decreases |units|
  {
    hide Plain, Serialize, Marks, StartCode, Follows;
    if units == [] {
      FollowsNone(b, i);
    } else {
      assert units[0] in units;
      assert forall v | v in units[1..] :: v in units;
      FollowsFirst(b, i, units);
      MarkFirst(b, i, units[0].long, units[0].nal);
      MarksOfSerialized(b, Next(i, units[0]), units[1..]);
    }
  }

  lemma MarkFirst(b: seq<byte>, i: nat, long: bool, nal: seq<byte>)
    requires var from := i + |StartCode(long)|; var to := from + |nal|;
             to <= |b| && b[i..from] == StartCode(long) && b[from..to] == nal && Plain(nal)
    ensures var from := i + |StartCode(long)|;
            Marks(b, i) == [Mark(i, |StartCode(long)|)] + Marks(b, from + |nal|)
  {
    var from := i + |StartCode(long)|;
    CodeLength(long);
    CodeAt(b, i, long);
    hide Marks;
    SkipNal(b, from, from + |nal|, from);
  }

  lemma CodeLength(long: bool)
    ensures |StartCode(long)| >= 3
  {
  }

  lemma Pieces(b: seq<byte>, i: nat, x: seq<byte>, y: seq<byte>, z: seq<byte>)
    requires i <= |b| && b[i..] == x + y + z
    ensures |b| == i + |x| + |y| + |z|
    ensures b[i..i + |x|] == x && b[i + |x|..i + |x| + |y|] == y && b[i + |x| + |y|..] == z
  {
    var t := b[i..];
    assert t[..|x|] == x && t[|x|..|x| + |y|] == y && t[|x| + |y|..] == z;
  }

  lemma CodeAt(b: seq<byte>, i: nat, long: bool)
    requires i + |StartCode(long)| < |b| && b[i..i + |StartCode(long)|] == StartCode(long)
    ensures Marks(b, i) == [Mark(i, |StartCode(long)|)] + Marks(b, i + |StartCode(long)|)
  {
    var c := b[i..i + |StartCode(long)|];
    assert b[i] == c[0] && b[i + 1] == c[1] && b[i + 2] == c[2];
    if long {
      assert b[i + 3] == c[3];
    }
  }

  /** The `k`-th of the marks has `nal` between it and the next. */
  predicate Placed(b: seq<byte>, ms: seq<Mark>, k: nat, nal: seq<byte>) {
    && k < |ms| && ms[k].at + ms[k].sc + |nal| == End(b, ms, k) <= |b|
    && b[ms[k].at + ms[k].sc..End(b, ms, k)] == nal
  }

  lemma PlacedLater(b: seq<byte>, m: Mark, ms: seq<Mark>, k: nat, nal: seq<byte>)
    requires Placed(b, ms, k, nal)
    ensures Placed(b, [m] + ms, k + 1, nal)
  {
  }

  lemma PlacedFirst(b: seq<byte>, i: nat, units: seq<Unit>)
    requires Follows(b, i, units) && units != []
    ensures Placed(b, Places(units, i), 0, units[0].nal)
  {
    var to := Next(i, units[0]);
    FollowsFirst(b, i, units);
    if units[1..] == [] {
      FollowsNone(b, to);
    }
    PlacesLength(units[1..], to);
    hide Follows, StartCode;
  }

  /** The `k`-th unit lies between its start code's place and the next one's. */
  lemma {:induction false} PlacesAt(b: seq<byte>, i: nat, units: seq<Unit>, k: nat)
    requires Follows(b, i, units) && k < |units|
    ensures Placed(b, Places(units, i), k, units[k].nal)
    decreases |units|
  {
    hide Follows, Placed, StartCode;
    if k == 0 {
      PlacedFirst(b, i, units);
    } else {
      FollowsFirst(b, i, units);
      PlacesAt(b, Next(i, units[0]), units[1..], k - 1);
      PlacedLater(b, Mark(i, |StartCode(units[0].long)|), Places(units[1..], Next(i, units[0])), k - 1, units[k].nal);
    }
  }

  lemma {:induction false} PlacesLength(units: seq<Unit>, i: nat)
    ensures |Places(units, i)| == |units|
    ensures units != [] ==> Places(units, i)[0].at == i
    decreases |units|
  {
    if units != [] {
      PlacesLength(units[1..], i + |StartCode(units[0].long)| + |units[0].nal|);
    }
  }

  /** Splitting inverts serialization, whatever start codes were used. */
  lemma SplitSerialized(units: seq<Unit>)
    requires forall u | u in units :: Plain(u.nal)
    ensures Payloads(Serialize(units)) == NalsOf(units)
  {
    var b := Serialize(units);
    assert b[0..] == b;
    MarksOfSerialized(b, 0, units);
    PlacesLength(units, 0);
    hide Octets, Nals, Follows, Plain, Places, Marks, Serialize, Placed;
    forall k | 0 <= k < |units|
      ensures Payloads(b)[k] == units[k].nal
    {
      PlacesAt(b, 0, units, k);
      PlacedOctets(b, k, units[k].nal);
    }
  }

  lemma PlacedOctets(b: seq<byte>, k: nat, nal: seq<byte>)
    requires Placed(b, Marks(b, 0), k, nal)
    ensures k < |Nals(b)| && Nals(b)[k].p + Nals(b)[k].len <= |b| && Octets(b, Nals(b)[k]) == nal
  {
    hide Marks;
  }

  // ----- the two splitters agree -----

  /** `strip_start_code`. */
  method StripStartCode(buf: seq<byte>) returns (nal: seq<byte>)
    ensures nal == Stripped(buf)
  {
    Prefixes(buf);
    hide StartCode;
    var off := 0;
    if |buf| >= 4 && buf[0] == 0 && buf[1] == 0 && buf[2] == 0 && buf[3] == 1 {
      off := 4;
    } else if |buf| >= 3 && buf[0] == 0 && buf[1] == 0 && buf[2] == 1 {
      off := 3;
    }
    return buf[off..];
  }

  function Stripped(buf: seq<byte>): seq<byte> {
    if StartCode(true) <= buf then buf[4..] else if StartCode(false) <= buf then buf[3..] else buf
  }

  /** Four octets go, or three, or none, and never anything but a start code. */
  lemma StrippedExactly(buf: seq<byte>)
    ensures |buf| >= 4 && buf[..4] == [0, 0, 0, 1] ==> Stripped(buf) == buf[4..]
    ensures |buf| >= 3 && buf[..3] == [0, 0, 1] ==> Stripped(buf) == buf[3..]
    ensures !(|buf| >= 4 && buf[..4] == [0, 0, 0, 1]) && !(|buf| >= 3 && buf[..3] == [0, 0, 1]) <==> Stripped(buf) == buf
  {
    Prefixes(buf);
    hide StartCode;
  }

  lemma Prefixes(buf: seq<byte>)
    ensures StartCode(true) <= buf <==> |buf| >= 4 && buf[0] == 0 && buf[1] == 0 && buf[2] == 0 && buf[3] == 1
    ensures StartCode(false) <= buf <==> |buf| >= 3 && buf[0] == 0 && buf[1] == 0 && buf[2] == 1
  {
    if |buf| >= 4 {
      assert StartCode(true) <= buf <==> buf[..4] == [0, 0, 0, 1];
    }
    if |buf| >= 3 {
      assert StartCode(false) <= buf <==> buf[..3] == [0, 0, 1];
    }
  }

  /** Of any stream, both splitters find as many NALs, ending alike, and stripping one of
      `fake_mpi`'s gives `replay`'s. */
  lemma SplittersAgree(b: seq<byte>, k: nat)
    requires k < |Marks(b, 0)|
    ensures |Nals(b)| == |Coded(b)| == |Marks(b, 0)|
    ensures Nals(b)[k].p + Nals(b)[k].len == Coded(b)[k].p + Coded(b)[k].len <= |b|
    ensures Stripped(Octets(b, Coded(b)[k])) == Octets(b, Nals(b)[k])
  {
    hide Marks, Nals, Coded, Code, Stripped;
    var m := Marks(b, 0)[k];
    NalInside(b, k);
    SpansAre(b, k);
    StrippedIs(b, m.at, End(b, Marks(b, 0), k));
  }

  /** Where the two spans of a start code are. */
  lemma SpansAre(b: seq<byte>, k: nat)
    requires k < |Marks(b, 0)|
    ensures var m, end := Marks(b, 0)[k], End(b, Marks(b, 0), k);
            && m.at + 3 < |b| && m.sc == Code(b, m.at) > 0 && m.at + m.sc <= end <= |b|
            && Nals(b)[k] == Span(m.at + m.sc, end - m.at - m.sc) && Coded(b)[k] == Span(m.at, end - m.at)
  {
    hide Marks, Code;
    var m := Marks(b, 0)[k];
    assert m.at + 3 < |b| && m.sc == Code(b, m.at);
  }

  lemma StrippedIs(b: seq<byte>, i: nat, to: nat)
    requires i + 3 < |b| && Code(b, i) > 0 && i + Code(b, i) <= to <= |b|
    ensures Stripped(b[i..to]) == b[i + Code(b, i)..to]
  {
    var c := b[i..to];
    assert c[0] == b[i] && c[1] == b[i + 1] && c[2] == b[i + 2];
    assert |c| >= 4 ==> c[3] == b[i + 3];
    Prefixes(c);
    hide StartCode;
  }
}

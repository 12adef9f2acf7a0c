/** Cutting the received byte stream into requests at each CRLFCRLF. */
module Framing {
  import opened Bytes

  const RXBUF_SIZE := 4096
  /** Octets of a request the receive buffer can hold beside its terminating NUL. */
  const RX_LIMIT := RXBUF_SIZE - 1

  predicate TerminatorAt(s: seq<byte>, i: nat) {
    i + 4 <= |s| && s[i] == 13 && s[i + 1] == 10 && s[i + 2] == 13 && s[i + 3] == 10
  }

  /** `strstr(s, "\r\n\r\n")` from offset `i`. */
  function FindFrom(s: seq<byte>, i: nat): (r: Option<nat>)
    requires i <= |s|
    ensures r.Some? ==> i <= r.value && TerminatorAt(s, r.value)
                        && forall j :: i <= j < r.value ==> !TerminatorAt(s, j)
    ensures r.None? ==> forall j :: i <= j ==> !TerminatorAt(s, j)
    decreases |s| - i
  {
    if i + 4 > |s| then None
    else if TerminatorAt(s, i) then Some(i)
    else FindFrom(s, i + 1)
  }

  function Find(s: seq<byte>): (r: Option<nat>)
    ensures r.Some? ==> r.value + 4 <= |s|
  {
    FindFrom(s, 0)
  }

  /** The first position decides `Find`. */
  lemma FindUnique(s: seq<byte>, k: nat)
    requires TerminatorAt(s, k) && forall j :: 0 <= j < k ==> !TerminatorAt(s, j)
    ensures Find(s) == Some(k)
  {
  }

  /** The part of a buffer a C string function sees. */
  function CString(s: seq<byte>): (r: seq<byte>)
    ensures r <= s && 0 !in r
    ensures r == s <==> 0 !in s
    ensures |r| < |s| ==> s[|r|] == 0
  {
    if s == [] || s[0] == 0 then [] else
      assert s == [s[0]] + s[1..];
      [s[0]] + CString(s[1..])
  }

  /** The request `drain_requests` takes out of the buffer next. */
  function NextRequest(rx: seq<byte>): (r: Option<seq<byte>>)
    ensures r.Some? ==> r.value <= rx && |r.value| >= 4 && 0 !in r.value
  {
    var s := CString(rx);
    match Find(s)
    case None => None
    case Some(k) => Some(s[..k + 4])
  }

  function Cut(s: seq<byte>): seq<seq<byte>>
    decreases |s|
  {
    match Find(s)
    case None => []
    case Some(k) => [s[..k + 4]] + Cut(s[k + 4..])
  }

  /** What follows the last complete request. */
  function Rest(s: seq<byte>): seq<byte>
    decreases |s|
  {
    match Find(s)
    case None => s
    case Some(k) => Rest(s[k + 4..])
  }

  /** Taking the first request off. */
  lemma CutFirst(s: seq<byte>, k: nat)
    requires Find(s) == Some(k)
    ensures s == s[..k + 4] + s[k + 4..]
    ensures Cut(s) == [s[..k + 4]] + Cut(s[k + 4..]) && Rest(s) == Rest(s[k + 4..])
  {
    hide Find;
  }

  lemma CutNone(s: seq<byte>)
    requires Find(s) == None
    ensures Cut(s) == [] && Rest(s) == s
  {
    hide Find;
  }

  lemma {:induction false} CutCovers(s: seq<byte>)
    ensures Flatten(Cut(s)) + Rest(s) == s
    ensures Find(Rest(s)).None?
    decreases |s|
  {
    hide Find, Flatten, Cut, Rest;
    match Find(s)
    case None =>
      CutNone(s);
      FlattenCons<byte>([], []);
    case Some(k) =>
      CutFirst(s, k);
      CutCovers(s[k + 4..]);
      FlattenCons(s[..k + 4], Cut(s[k + 4..]));
  }

  /** A request ends in a terminator, its first. */
  predicate EndsOnce(r: seq<byte>) {
    |r| >= 4 && TerminatorAt(r, |r| - 4) && forall j :: 0 <= j < |r| - 4 ==> !TerminatorAt(r, j)
  }

  lemma FirstEndsOnce(s: seq<byte>, k: nat)
    requires Find(s) == Some(k)
    ensures EndsOnce(s[..k + 4])
  {
    var r := s[..k + 4];
    assert forall j :: 0 <= j <= k ==> (TerminatorAt(r, j) <==> TerminatorAt(s, j));
  }

  lemma {:induction false} CutEndsOnce(s: seq<byte>)
    ensures forall r :: r in Cut(s) ==> EndsOnce(r)
    decreases |s|
  {
    hide Find, EndsOnce;
    match Find(s)
    case None =>
    case Some(k) =>
      FirstEndsOnce(s, k);
      CutEndsOnce(s[k + 4..]);
  }

  lemma FindAppend(a: seq<byte>, b: seq<byte>)
    requires Find(a).Some?
    ensures Find(a + b) == Find(a)
  {
    var k := Find(a).value;
    assert forall j :: 0 <= j <= k ==> (TerminatorAt(a, j) <==> TerminatorAt(a + b, j));
    FindUnique(a + b, k);
  }

  /** Requests already cut never depend on octets that arrive later. */
  lemma {:induction false} CutAppend(a: seq<byte>, b: seq<byte>)
    ensures Cut(a + b) == Cut(a) + Cut(Rest(a) + b)
    ensures Rest(a + b) == Rest(Rest(a) + b)
    decreases |a|
  {
    hide Find, Cut, Rest;
    match Find(a)
    case None =>
      CutNone(a);
      assert [] + Cut(a + b) == Cut(a + b);
    case Some(k) =>
      FindAppend(a, b);
      CutFirst(a, k);
      CutFirst(a + b, k);
      assert (a + b)[..k + 4] == a[..k + 4];
      assert (a + b)[k + 4..] == a[k + 4..] + b;
      CutAppend(a[k + 4..], b);
  }

  /** Every request fits the receive buffer, and so does the unfinished one with room to spare. */
  predicate Fits(s: seq<byte>) {
    && (forall r :: r in Cut(s) ==> |r| <= RX_LIMIT)
    && |Rest(s)| < RX_LIMIT
  }

  /** A terminator that later octets complete ends among them. */
  lemma FindLater(rest: seq<byte>, b: seq<byte>)
    requires Find(rest) == None && Find(rest + b).Some?
    ensures Find(rest + b).value + 4 > |rest|
  {
    var k := Find(rest + b).value;
    assert TerminatorAt(rest + b, k) && !TerminatorAt(rest, k);
  }

  /** What has been received of a stream that fits, fits. */
  lemma FitsPrefix(a: seq<byte>, b: seq<byte>)
    requires Fits(a + b)
    ensures Fits(a)
  {
    hide Find, Cut, Rest, Flatten;
    CutAppend(a, b);
    CutCovers(a);
    var rest := Rest(a);
    match Find(rest + b)
    case None =>
      CutNone(rest + b);
    case Some(k) =>
      FindLater(rest, b);
      CutFirst(rest + b, k);
      assert |(rest + b)[..k + 4]| == k + 4;
      assert (rest + b)[..k + 4] in Cut(a + b);
  }
}

/** Both ends of the TCP stream in their imperative form: `send_all` over a socket that may take less
    than it is given or be interrupted, and the reader that collects whatever chunks arrive. */
module Sockets {
  import opened Bytes
  import opened Framing
  import opened Wire

  /** A connected socket, as far as `send` is concerned. */
  class Socket {
    ghost var sent: seq<byte>
    /** Signals still to arrive during a send. */
    var interrupts: nat

    constructor (interrupts: nat)
      ensures sent == [] && this.interrupts == interrupts
    {
      sent := [];
      this.interrupts := interrupts;
    }

    /** `send`: takes some of the octets, or returns -1 with `EINTR`. Other errors are not modelled. */
    method Send(data: seq<byte>) returns (n: int)
      requires data != []
      modifies this
      ensures n == -1 || 1 <= n <= |data|
      ensures n == -1 ==> sent == old(sent) && interrupts < old(interrupts)
      ensures n != -1 ==> sent == old(sent) + data[..n] && interrupts == old(interrupts)
    {
      var signal: bool := *;
      if interrupts > 0 && signal {
        interrupts := interrupts - 1;
        n := -1;
      } else {
        n :| 1 <= n <= |data|;
        sent := sent + data[..n];
      }
    }

    /** `send_all` */
    method SendAll(data: seq<byte>)
      modifies this
      ensures sent == old(sent) + data
    {
      var p, len := 0, |data|;
      while len > 0
        invariant 0 <= p <= |data| && len == |data| - p
        invariant sent == old(sent) + data[..p]
        decreases len, interrupts
      {
        var n := Send(data[p..]);
        if n == -1 { continue; }
        assert data[..p] + data[p..][..n] == data[..p + n];
        p := p + n;
        len := len - n;
      }
      assert data[..p] == data;
    }
  }

  /** `Conn`: the octets read so far, and those the peer sends before it closes. */
  class Conn {
    var buf: seq<byte>
    var pending: seq<byte>

    constructor (stream: seq<byte>)
      ensures Stream() == stream
    {
      buf := [];
      pending := stream;
    }

    /** Everything not yet consumed. */
    function Stream(): seq<byte>
      reads this
    {
      buf + pending
    }

    /** `fill`: one `recv` of any size; false is `EOFError`. */
    method Fill() returns (ok: bool)
      modifies this
      ensures Stream() == old(Stream())
      ensures ok ==> |pending| < old(|pending|) && old(buf) <= buf
      ensures !ok ==> pending == [] && buf == old(buf)
    {
      ok := pending != [];
      if ok {
        var n :| 1 <= n <= |pending| && n <= 65536;
        assert pending == pending[..n] + pending[n..];
        buf, pending := buf + pending[..n], pending[n..];
      }
    }

    /** Reads until at least `n` octets are buffered. */
    method FillTo(n: nat) returns (ok: bool)
      modifies this
      ensures Stream() == old(Stream()) && old(buf) <= buf
      ensures ok ==> |buf| >= n
      ensures !ok ==> pending == [] && |buf| < n
    {
      ok := true;
      while ok && |buf| < n
        invariant Stream() == old(Stream()) && old(buf) <= buf
        invariant !ok ==> pending == [] && |buf| < n
        decreases ok, |pending|
      {
        ok := Fill();
      }
    }

    /** The `$` branch. */
    method NextFrame() returns (r: Demuxed)
      requires buf != [] && buf[0] == DOLLAR
      modifies this
      ensures r == Demux(old(Stream()))
      ensures r.Got? ==> r.rest == Stream()
    {
      var ok := FillTo(4);
      if !ok { return Eof; }
      var n: nat := FromBE16(buf[2..4]);
      assert Stream()[2..4] == buf[2..4];
      ok := FillTo(4 + n);
      assert Stream()[2..4] == buf[2..4];
      if !ok { return Eof; }
      var pkt := Frame(buf[1], buf[4..4 + n]);
      assert Stream()[4..4 + n] == buf[4..4 + n] && Stream()[4 + n..] == buf[4 + n..] + pending;
      buf := buf[4 + n..];
      return Got(pkt, Stream());
    }

    /** The `RTSP/` branch. */
    method NextReply() returns (r: Demuxed)
      requires RTSP_SLASH <= buf
      modifies this
      ensures r == Demux(old(Stream()))
      ensures r.Got? ==> r.rest == Stream()
    {
      var ok := true;
      while ok && Find(buf).None?
        invariant Stream() == old(Stream()) && RTSP_SLASH <= buf
        invariant !ok ==> pending == [] && Find(buf).None?
        decreases ok, |pending|
      {
        ok := Fill();
      }
      if !ok {
        assert Stream() == buf;
        return Eof;
      }
      FindAppend(buf, pending);
      var k := Find(buf).value;
      var head := buf[..k];
      assert Stream()[..k] == head;
      var clen := ContentLength(SplitLines(head));
      if clen.None? {
        return BadLength;
      }
      ok := FillTo(k + 4 + clen.value);
      assert Stream()[..k] == head;
      if !ok { return Eof; }
      var end := k + 4 + clen.value;
      var body := buf[k + 4..end];
      assert Stream()[k + 4..][..clen.value] == body;
      assert Stream()[k + 4..][clen.value..] == buf[end..] + pending;
      buf := buf[end..];
      return Got(Rtsp(head, body), Stream());
    }

    /** `next_message`: what it returns depends on the octets alone, never on their chunking. */
    method NextMessage() returns (r: Demuxed)
      modifies this
      ensures r == Demux(old(Stream()))
      ensures r.Got? ==> r.rest == Stream()
    {
      while true
        invariant Stream() == old(Stream())
        decreases |pending|
      {
        if buf != [] && buf[0] == DOLLAR {
          r := NextFrame();
          return;
        }
        if RTSP_SLASH <= buf {
          r := NextReply();
          return;
        }
        var ok := Fill();
        if !ok {
          assert Stream() == buf;
          return Eof;
        }
      }
    }
  }
}

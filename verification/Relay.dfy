/** The relay proxy's connection: a request header that may wait for the first write, a response awaited
    once, and datagrams framed by a two-byte length. */
module Relay {
  import opened Bytes
  import opened Transport

  const VERSION_1: byte := 1
  const STATUS_OK: byte := 0
  const MAX_UINT16 := 0xFFFF

  datatype RelayError = Io(error: IoError) | BadVersion | BadStatus(status: byte) | DataMaximumExceeded

  /** What the protocol library makes of the bytes a server sends first, and how many it takes. The library
      is not part of this model: any function of the stream will do. */
  datatype Response = Response(version: byte, status: byte, size: nat) | Unreadable(error: IoError, size: nat)

  type Parser = (seq<byte>, IoError) -> Response

  function Verdict(r: Response): Option<RelayError> {
    if r.Unreadable? then Some(Io(r.error))
    else if r.version != VERSION_1 then Some(BadVersion)
    else if r.status != STATUS_OK then Some(BadStatus(r.status))
    else None
  }

  /** Only a response of version 1 with status 0 is accepted; any other is refused for its first fault. */
  lemma VerdictExactly(r: Response)
    ensures Verdict(r).None? <==> Accepting(r)
    ensures Verdict(r).Some? ==> Refuses(r, Verdict(r).value)
  {
  }

  predicate Accepting(r: Response) {
    r.Response? && r.version == 1 && r.status == 0
  }

  predicate Refuses(r: Response, e: RelayError) {
    match e
    case Io(io) => r.Unreadable? && r.error == io
    case BadVersion => r.Response? && r.version != 1
    case BadStatus(status) => r.Response? && r.version == 1 && r.status == status && status != 0
    case DataMaximumExceeded => false
  }

  function Behind(parse: Parser, input: seq<byte>, fin: IoError): seq<byte> {
    input[Min(parse(input, fin).size, |input|)..]
  }

  /** `readRelayResponse`. */
  method ReadRelayResponse(src: Source, parse: Parser) returns (err: Option<RelayError>)
    modifies src
    ensures err == Verdict(parse(old(src.input), src.fin))
    ensures src.input == Behind(parse, old(src.input), src.fin)
  {
    var r := parse(src.input, src.fin);
    src.input := src.input[Min(r.size, |src.input|)..];
    if r.Unreadable? {
      return Some(Io(r.error));
    }
    if r.version != VERSION_1 {
      return Some(BadVersion);
    }
    if r.status != STATUS_OK {
      return Some(BadStatus(r.status));
    }
    return None;
  }

  /** What one accepted write puts on the wire. */
  function Framed(udp: bool, b: seq<byte>): seq<byte> {
    if udp then BE16(|b|) + b else b
  }

  predicate Fits(udp: bool, b: seq<byte>) {
    udp ==> |b| <= MAX_UINT16
  }

  function FramedAll(udp: bool, writes: seq<seq<byte>>): seq<byte> {
    if writes == [] then [] else Framed(udp, writes[0]) + FramedAll(udp, writes[1..])
  }

  lemma {:induction false} FramedAllSnoc(udp: bool, writes: seq<seq<byte>>, b: seq<byte>)
    ensures FramedAll(udp, writes + [b]) == FramedAll(udp, writes) + Framed(udp, b)
  {
    if writes == [] {
      assert writes + [b] == [b];
    } else {
      assert (writes + [b])[1..] == writes[1..] + [b];
      FramedAllSnoc(udp, writes[1..], b);
      Assoc(Framed(udp, writes[0]), FramedAll(udp, writes[1..]), Framed(udp, b));
    }
  }

  /** What a UDP read takes from the stream and gives its caller. `bytes` is `None` where the code hands out
      pooled bytes it never filled. */
  datatype Datagram = Datagram(n: nat, bytes: Option<seq<byte>>, err: Option<RelayError>, rest: seq<byte>)

  /** The body of a datagram of `size` bytes for a caller with room for `room`. */
  function BodyRead(input: seq<byte>, size: nat, room: nat, fin: IoError): Datagram {
    var have := Min(size, |input|);
    var err := match FullError(size, |input|, fin) case None => None case Some(e) => Some(Io(e));
    if size <= room then Datagram(have, Some(input[..have]), err, input[have..])
    else Datagram(room, if err.None? then Some(input[..room]) else None, err, input[have..])
  }

  function DatagramRead(input: seq<byte>, room: nat, fin: IoError): Datagram {
    if |input| < 2 then Datagram(0, Some([]), Some(Io(FullError(2, |input|, fin).value)), [])
    else BodyRead(input[2..], FromBE16(input[..2]), room, fin)
  }

  /** A read takes exactly one frame off the stream, however little room the caller has. */
  lemma OneFramePerRead(frame: seq<byte>, rest: seq<byte>, room: nat, fin: IoError)
    requires |frame| <= MAX_UINT16
    ensures var n := Min(room, |frame|);
            DatagramRead(Framed(true, frame) + rest, room, fin) == Datagram(n, Some(frame[..n]), None, rest)
  {
    var input := Framed(true, frame) + rest;
    BE16RoundTrip(|frame|);
    assert input[..2] == BE16(|frame|);
    assert input[2..] == frame + rest;
    assert (frame + rest)[..|frame|] == frame && (frame + rest)[|frame|..] == rest;
    assert (frame + rest)[..Min(room, |frame|)] == frame[..Min(room, |frame|)];
  }

  class RelayConn {
    const src: Source
    const sink: Sink
    const udp: bool
    const parse: Parser
    var once: bool
    var wbuf: Option<seq<byte>>

    /** The header that is still to be sent. */
    function Queued(): seq<byte>
      reads this
    {
      if wbuf.Some? then wbuf.value else []
    }

    predicate AwaitsResponse()
      reads this
    {
      wbuf.Some? && !once
    }

    /** What the next read will make of the response, if it is still to come. */
    function Objection(): Option<RelayError>
      reads this, src
    {
      if AwaitsResponse() then Verdict(parse(src.input, src.fin)) else None
    }

    /** The payload stream, past the response. */
    function Coming(): seq<byte>
      reads this, src
    {
      if AwaitsResponse() then Behind(parse, src.input, src.fin) else src.input
    }

    /** `newRelayConn`, with the header already in the buffer of a delayed connection. */
    constructor (src: Source, sink: Sink, udp: bool, parse: Parser, wbuf: Option<seq<byte>>)
      ensures this.src == src && this.sink == sink && this.udp == udp && this.parse == parse
      ensures !once && this.wbuf == wbuf
    {
      this.src, this.sink, this.udp, this.parse := src, sink, udp, parse;
      this.once, this.wbuf := false, wbuf;
    }

    /** `tcpWrite` and `udpWrite`. */
    method Write(b: seq<byte>) returns (n: nat, err: Option<RelayError>)
      requires !sink.failed
      modifies this`wbuf, sink
      ensures wbuf.Some? <==> old(wbuf).Some?
      ensures Fits(udp, b) && !sink.failed ==>
                && err.None? && n == |b| && Queued() == []
                && sink.sent == old(sink.sent) + old(Queued()) + Framed(udp, b)
      ensures Fits(udp, b) && sink.failed ==> err.Some?
      ensures !Fits(udp, b) ==>
                err == Some(DataMaximumExceeded) && n == 0 && wbuf == old(wbuf)
                && sink.sent == old(sink.sent) && !sink.failed
    {
      if udp {
        n, err := UdpWrite(b);
      } else {
        n, err := TcpWrite(b);
      }
    }

    method TcpWrite(b: seq<byte>) returns (n: nat, err: Option<RelayError>)
      requires !sink.failed
      modifies this`wbuf, sink
      ensures wbuf.Some? <==> old(wbuf).Some?
      ensures err.Some? <==> sink.failed
      ensures !sink.failed ==>
                n == |b| && Queued() == [] && sink.sent == old(sink.sent) + old(Queued()) + b
    {
      if wbuf.Some? && |wbuf.value| > 0 {
        n := |b|;
        var m, e := sink.Write(wbuf.value + b);
        err := match e case None => None case Some(x) => Some(Io(x));
        if e.None? {
          assert (wbuf.value + b)[..m] == wbuf.value + b;
          Assoc(old(sink.sent), wbuf.value, b);
        }
        wbuf := Some([]);
      } else {
        var m, e := sink.Write(b);
        n := m;
        err := match e case None => None case Some(x) => Some(Io(x));
        if e.None? {
          assert b[..n] == b && old(sink.sent) + [] == old(sink.sent);
        }
      }
    }

    method UdpWrite(b: seq<byte>) returns (n: nat, err: Option<RelayError>)
      requires !sink.failed
      modifies this`wbuf, sink
      ensures wbuf.Some? <==> old(wbuf).Some?
      ensures |b| > MAX_UINT16 ==>
                err == Some(DataMaximumExceeded) && n == 0 && wbuf == old(wbuf)
                && sink.sent == old(sink.sent) && !sink.failed
      ensures |b| <= MAX_UINT16 ==>
                && (err.Some? <==> sink.failed)
                && (!sink.failed ==>
                      n == |b| && Queued() == [] && sink.sent == old(sink.sent) + old(Queued()) + (BE16(|b|) + b))
    {
      if |b| > MAX_UINT16 {
        return 0, Some(DataMaximumExceeded);
      }
      var bb := BE16(|b|);
      if wbuf.Some? && |wbuf.value| > 0 {
        n := |b|;
        var all := wbuf.value + bb + b;
        var m, e := sink.Write(all);
        wbuf := Some(all[m..]);
        err := match e case None => None case Some(x) => Some(Io(x));
        if e.None? {
          assert all[..m] == all && all == old(Queued()) + (bb + b);
          Assoc(old(sink.sent), old(Queued()), bb + b);
        }
      } else {
        n := |b|;
        var m, e := sink.Write(bb);
        if e.Some? {
          return n, Some(Io(e.value));
        }
        assert bb[..m] == bb;
        m, e := sink.Write(b);
        n := m;
        err := match e case None => None case Some(x) => Some(Io(x));
        if e.None? {
          assert b[..m] == b && old(sink.sent) + [] == old(sink.sent);
          Assoc(old(sink.sent), bb, b);
        }
      }
    }

    /** `Read`: the response is looked at on the first call of a delayed connection and never again. */
    method Read(b: array<byte>) returns (n: nat, err: Option<RelayError>)
      modifies this`once, src, b
      ensures once && n <= b.Length
      ensures var input := old(Coming());
              if old(AwaitsResponse() && !Accepting(parse(src.input, src.fin))) then
                && n == 0 && err.Some? && err == old(Objection()) && src.input == input
                && Refuses(old(parse(src.input, src.fin)), err.value)
              else if !udp then
                && n <= |input| && b[..n] == input[..n] && src.input == input[n..]
                && (err.Some? ==> src.input == [] && err.value == Io(src.fin))
                && (err.None? && b.Length > 0 ==> n > 0)
                && (input != [] && b.Length > 0 ==> n > 0)
              else
                var d := DatagramRead(input, b.Length, src.fin);
                && n == d.n && err == d.err && src.input == d.rest
                && (d.bytes.Some? ==> b[..n] == d.bytes.value)
    {
      VerdictExactly(parse(src.input, src.fin));
      var first := !once;
      once := true;
      if first && wbuf.Some? {
        err := ReadRelayResponse(src, parse);
        if err.Some? {
          return 0, err;
        }
      }
      if !udp {
        var m, e := src.Read(b, 0, b.Length);
        n := m;
        err := match e case None => None case Some(x) => Some(Io(x));
        assert b[..n] == b[0..0 + n];
      } else {
        n, err := ReadDatagram(b);
      }
    }

    method ReadDatagram(b: array<byte>) returns (n: nat, err: Option<RelayError>)
      modifies src, b
      ensures var d := DatagramRead(old(src.input), b.Length, src.fin);
              && n == d.n <= b.Length && err == d.err && src.input == d.rest
              && (d.bytes.Some? ==> b[..n] == d.bytes.value)
    {
      var bb := new byte[2];
      var m, e := ReadFull(src, bb, 0, 2);
      if e.Some? {
        return 0, Some(Io(e.value));
      }
      assert bb[..2] == bb[0..0 + m] == old(src.input)[..2];
      var dLen := FromBE16(bb[..2]);
      if b.Length >= dLen {
        n, e := ReadFull(src, b, 0, dLen);
        assert b[..n] == b[0..0 + n];
        err := match e case None => None case Some(x) => Some(Io(x));
      } else {
        var buf := new byte[dLen];
        m, e := ReadFull(src, buf, 0, dLen);
        n := b.Length;
        Blit(b, 0, buf[..n]);
        assert b[..n] == b[0..0 + n] == buf[..n];
        if e.None? {
          assert buf[..n] == buf[0..0 + dLen][..n];
        }
        err := match e case None => None case Some(x) => Some(Io(x));
      }
    }
  }

  /** `dialContext` once the transport is up: without delay the header goes out and the response is read at
      once; otherwise both wait. */
  method Dial(src: Source, sink: Sink, udp: bool, parse: Parser, noDelay: bool, header: seq<byte>)
      returns (conn: RelayConn?, err: Option<RelayError>)
    requires !sink.failed
    modifies src, sink
    ensures err.Some? <==> conn == null
    ensures conn != null ==>
              && fresh(conn) && conn.src == src && conn.sink == sink && conn.udp == udp && conn.parse == parse
              && !conn.once && !sink.failed
    ensures noDelay && conn != null ==>
              && conn.wbuf == None && sink.sent == old(sink.sent) + header
              && src.input == Behind(parse, old(src.input), src.fin)
    ensures noDelay && !sink.failed ==>
              var response := parse(old(src.input), src.fin);
              && err == Verdict(response) && (conn != null <==> Accepting(response))
              && (err.Some? ==> Refuses(response, err.value))
    ensures !noDelay ==>
              && conn != null && conn.wbuf == Some(header)
              && sink.sent == old(sink.sent) && src.input == old(src.input)
  {
    conn, err := null, None;
    VerdictExactly(parse(src.input, src.fin));
    if noDelay {
      var n, e := sink.Write(header);
      if e.Some? {
        return null, Some(Io(e.value));
      }
      assert header[..n] == header;
      err := ReadRelayResponse(src, parse);
      if err.Some? {
        return null, err;
      }
    }
    conn := new RelayConn(src, sink, udp, parse, if noDelay then None else Some(header));
  }

  /** Any sequence of writes the code accepts. */
  method SendAll(conn: RelayConn, writes: seq<seq<byte>>) returns (err: Option<RelayError>)
    requires !conn.sink.failed && forall i :: 0 <= i < |writes| ==> Fits(conn.udp, writes[i])
    modifies conn`wbuf, conn.sink
    ensures err.Some? <==> conn.sink.failed
    ensures err.None? && writes != [] ==>
              && conn.sink.sent == old(conn.sink.sent) + old(conn.Queued()) + FramedAll(conn.udp, writes)
              && conn.Queued() == []
    ensures writes == [] ==> conn.sink.sent == old(conn.sink.sent) && conn.wbuf == old(conn.wbuf)
  {
    err := None;
    ghost var base := conn.sink.sent + conn.Queued();
    var i := 0;
    while i < |writes| && err.None?
      invariant i <= |writes|
      invariant err.Some? <==> conn.sink.failed
      invariant i == 0 ==> conn.sink.sent == old(conn.sink.sent) && conn.wbuf == old(conn.wbuf) && err.None?
      invariant i > 0 && err.None? ==>
                  conn.sink.sent == base + FramedAll(conn.udp, writes[..i]) && conn.Queued() == []
      decreases if err.None? then |writes| - i else 0
    {
      ghost var held := conn.sink.sent;
      var n, e := conn.Write(writes[i]);
      err := e;
      if err.None? {
        assert writes[..i + 1] == writes[..i] + [writes[i]];
        FramedAllSnoc(conn.udp, writes[..i], writes[i]);
        if i == 0 {
          assert writes[..0] == [] && FramedAll(conn.udp, writes[..1]) == Framed(conn.udp, writes[0]);
        } else {
          assert held + [] == held;
          Assoc(base, FramedAll(conn.udp, writes[..i]), Framed(conn.udp, writes[i]));
        }
      }
      i := i + 1;
    }
    assert writes[..|writes|] == writes;
  }

  /** Both modes put the same bytes on the wire, the header once and first, as soon as anything is written;
      with nothing written only the undelayed one has sent its header. */
  method Session(src: Source, sink: Sink, udp: bool, parse: Parser, noDelay: bool, header: seq<byte>,
                 writes: seq<seq<byte>>) returns (err: Option<RelayError>)
    requires !sink.failed && forall i :: 0 <= i < |writes| ==> Fits(udp, writes[i])
    modifies src, sink
    ensures !noDelay ==> (err.Some? <==> sink.failed)
    ensures noDelay ==> (err.Some? <==> sink.failed || !Accepting(parse(old(src.input), src.fin)))
    ensures err.None? ==>
              sink.sent == old(sink.sent) + if noDelay || writes != [] then header + FramedAll(udp, writes) else []
  {
    var conn;
    conn, err := Dial(src, sink, udp, parse, noDelay, header);
    if err.Some? {
      return;
    }
    ghost var base := sink.sent;
    assert base + [] == base;
    err := SendAll(conn, writes);
    if err.None? && writes != [] {
      Assoc(old(sink.sent), header, FramedAll(udp, writes));
    }
    assert header + FramedAll(udp, []) == header;
  }

  function Shortened(frames: seq<seq<byte>>, rooms: seq<nat>): seq<seq<byte>>
    requires |frames| == |rooms|
  {
    seq(|frames|, i requires 0 <= i < |frames| => frames[i][..Min(rooms[i], |frames[i]|)])
  }

  /** After a good response the k-th read of a UDP connection returns the first bytes of frame k, as many as
      the caller has room for: short buffers never put the framing out of step. */
  method ReceiveAll(conn: RelayConn, ghost frames: seq<seq<byte>>, ghost rest: seq<byte>, rooms: seq<nat>)
      returns (got: seq<seq<byte>>)
    requires conn.udp && |rooms| == |frames| && forall i :: 0 <= i < |frames| ==> |frames[i]| <= MAX_UINT16
    requires conn.Objection().None? && conn.Coming() == FramedAll(true, frames) + rest
    modifies conn`once, conn.src
    ensures got == Shortened(frames, rooms)
    ensures conn.Coming() == rest
  {
    hide DatagramRead, BodyRead, Framed;
    got := [];
    assert frames[0..] == frames;
    for k := 0 to |rooms|
      invariant |got| == k && forall i :: 0 <= i < k ==> got[i] == Shortened(frames, rooms)[i]
      invariant conn.Objection().None? && conn.Coming() == FramedAll(true, frames[k..]) + rest
    {
      var b := new byte[rooms[k]];
      assert frames[k..][0] == frames[k] && frames[k..][1..] == frames[k + 1..];
      Assoc(Framed(true, frames[k]), FramedAll(true, frames[k + 1..]), rest);
      OneFramePerRead(frames[k], FramedAll(true, frames[k + 1..]) + rest, rooms[k], conn.src.fin);
      var n, err := conn.Read(b);
      got := got + [b[..n]];
    }
    assert FramedAll(true, frames[|rooms|..]) + rest == rest;
  }

  /** What happens after a bad response: the first read reports it, and the second takes what follows it for
      payload, as if it had been good. */
  method ReadAfterRejection(conn: RelayConn, b: array<byte>)
      returns (first: Option<RelayError>, n: nat, err: Option<RelayError>)
    requires conn.Objection().Some?
    modifies conn`once, conn.src, b
    ensures first == old(conn.Objection())
    ensures var payload := old(conn.Coming());
            if !conn.udp then
              && n <= b.Length && n <= |payload| && b[..n] == payload[..n] && conn.src.input == payload[n..]
              && (payload != [] && b.Length > 0 ==> n > 0)
            else
              var d := DatagramRead(payload, b.Length, conn.src.fin);
              && n == d.n <= b.Length && err == d.err && conn.src.input == d.rest
              && (d.bytes.Some? ==> b[..n] == d.bytes.value)
  {
    var none;
    none, first := conn.Read(b);
    n, err := conn.Read(b);
  }
}

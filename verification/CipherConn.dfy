/** A Shadowsocks stream-cipher connection as its users see it: an IV in front of each direction, created or
    read on first use, and the end-to-end round trip. */
module CipherConn {
  import opened Bytes
  import opened Transport
  import opened CipherStream

  /** The sending half of a connection. */
  class ConnWriter {
    const cipher: Cipher
    const sink: Sink
    var writeIV: seq<byte>
    var w: Writer?
    ghost var written: seq<byte> // everything given to this half so far

    ghost function Repr(): set<object>
      reads this
    {
      {this, sink} + if w == null then {} else {w.stream, w.buf}
    }

    /** One IV, then the encryption of everything written as one message. */
    function Wire(plain: seq<byte>): seq<byte>
      reads this
    {
      writeIV + cipher.enc(writeIV, plain)
    }

    ghost predicate Valid()
      reads this, sink, if w == null then {} else {w, w.stream}
    {
      && cipher.Lawful()
      && (w == null ==> sink.failed || (sink.sent == [] && written == []))
      && (w != null ==>
            && w.sink == sink && w.Valid() && |writeIV| == cipher.ivSize
            && w.stream.cipher == cipher && w.stream.iv == writeIV && w.base == writeIV
            && w.stream.done <= written && (!sink.failed ==> w.stream.done == written))
    }

    constructor (sink: Sink, cipher: Cipher)
      requires cipher.Lawful() && sink.sent == [] && !sink.failed
      ensures Valid() && this.sink == sink && this.cipher == cipher && w == null && written == []
    {
      this.sink, this.cipher, w, writeIV, written := sink, cipher, null, [], [];
    }

    /** `initWriter`: draws an IV unless there is one, sends it, and keys the writer with it. */
    method Init() returns (err: Option<IoError>)
      requires Valid() && !sink.failed && w == null
      modifies this`w, this`writeIV, sink
      ensures sink.failed == err.Some? && (w == null) == err.Some?
      ensures Valid() && fresh(Repr() - old(Repr())) && |writeIV| == cipher.ivSize
      ensures sink.sent <= writeIV
      ensures err.None? ==> w.stream.done == []
    {
      if |writeIV| != cipher.ivSize {
        var fromRandom := *;
        if |fromRandom| != cipher.ivSize {
          fromRandom := seq(cipher.ivSize, _ => 0);
        }
        writeIV := fromRandom;
      }
      var n, e := sink.Write(writeIV);
      err := e;
      if err.None? {
        var stream := new Stream(cipher, false, writeIV);
        assert writeIV[..n] == writeIV;
        w := new Writer(sink, stream);
      }
    }

    /** `Write`: while nothing fails the wire is one IV and the one-shot encryption of every write so far; a
        failing write leaves a prefix of that. */
    method Write(b: seq<byte>) returns (n: nat, err: Option<IoError>)
      requires Valid() && !sink.failed
      modifies Repr()
      ensures Valid() && fresh(Repr() - old(Repr()))
      ensures sink.failed == err.Some? && written == old(written) + b
      ensures |writeIV| == cipher.ivSize && sink.sent <= Wire(written)
      ensures err.None? ==> n == |b| && sink.sent == Wire(written)
    {
      if w == null {
        err := Init();
        if err.Some? {
          written := written + b;
          return 0, err;
        }
      }
      n, err := w.Write(b);
      written := written + b;
      Shorter(w.stream.done);
    }

    /** `ReadFrom`: the same for input that comes in fragments. */
    method ReadFrom(r: Source) returns (n: nat, err: Option<IoError>)
      requires Valid() && !sink.failed && r !in Repr()
      modifies Repr(), r
      ensures Valid() && fresh(Repr() - old(Repr()))
      ensures written == old(written) + old(r.input)
      ensures |writeIV| == cipher.ivSize && sink.sent <= Wire(written)
      ensures !sink.failed ==>
                && n == |old(r.input)| && sink.sent == Wire(written)
                && err == if r.fin == Eof then None else Some(r.fin)
      ensures sink.failed ==> err.Some?
    {
      ghost var all := r.input;
      if w == null {
        err := Init();
        if err.Some? {
          written := written + all;
          return 0, err;
        }
      }
      n, err := w.ReadFrom(r);
      written := written + all;
      Shorter(w.stream.done);
    }

    lemma Shorter(done: seq<byte>)
      requires cipher.Lawful() && done <= written
      ensures Wire(done) <= Wire(written)
    {
      assert written == done + written[|done|..];
      PrefixCons(writeIV, cipher.enc(writeIV, done), cipher.enc(writeIV, written));
    }
  }

  /** What a fresh reader will make of a stream. */
  function FutureOf(cipher: Cipher, input: seq<byte>): seq<byte> {
    if |input| < cipher.ivSize then [] else cipher.dec(input[..cipher.ivSize], input[cipher.ivSize..])
  }

  /** The receiving half of a connection. */
  class ConnReader {
    const cipher: Cipher
    const src: Source
    var readIV: seq<byte>
    var r: Reader?

    ghost function Repr(): set<object>
      reads this
    {
      {this, src} + if r == null then {} else {r.stream, r.buf}
    }

    ghost predicate Valid()
      reads this, if r == null then {} else {r}
    {
      && cipher.Lawful()
      && (r == null ==> readIV == [])
      && (r != null ==> r.src == src && r.Valid() && r.stream.cipher == cipher)
    }

    /** Everything this connection could still deliver. */
    ghost function Future(): seq<byte>
      requires Valid()
      reads this, src, if r == null then {} else {r, r.stream}
    {
      if r == null then FutureOf(cipher, src.input)
      else cipher.Xored(true, r.stream.iv, r.stream.done, src.input)
    }

    constructor (src: Source, cipher: Cipher)
      requires cipher.Lawful()
      ensures Valid() && this.src == src && this.cipher == cipher && r == null
    {
      this.src, this.cipher, r, readIV := src, cipher, null, [];
    }

    /** `initReader`: the first `ivSize` bytes of the stream key the reader. */
    method Init() returns (err: Option<IoError>)
      requires Valid() && r == null
      modifies this, src
      ensures Valid() && fresh(Repr() - old(Repr())) && (r == null) == err.Some?
      ensures |src.input| <= |old(src.input)|
      ensures err.None? ==> Future() == old(Future())
      ensures err.Some? ==> old(Future()) == Future() == []
    {
      if |readIV| != cipher.ivSize {
        var iv := new byte[cipher.ivSize];
        var n;
        n, err := ReadFull(src, iv, 0, cipher.ivSize);
        if err.Some? {
          return;
        }
        assert iv[..] == iv[0..0 + n];
        readIV := iv[..];
      } else {
        assert readIV == src.input[..0] && src.input[0..] == src.input;
      }
      err := None;
      var stream := new Stream(cipher, true, readIV);
      r := new Reader(src, stream);
      assert [] + src.input == src.input;
    }

    /** `Read`: what it delivers comes off the front of what is to come. An error ends the stream, and on a
        coupled connection, but on no other, the last fragment with it. */
    method Read(p: array<byte>) returns (n: nat, err: Option<IoError>)
      requires Valid() && p !in Repr()
      modifies Repr(), p
      ensures Valid() && fresh(Repr() - old(Repr())) && n <= p.Length
      ensures err.None? ==> p[..n] + Future() == old(Future())
      ensures err.None? && p.Length > 0 ==> n > 0 && |src.input| < |old(src.input)|
      ensures err.None? && p.Length > 0 && src.coupled ==> Future() != []
      ensures err.Some? ==> n == 0 && Future() == [] && |old(Future())| <= p.Length
      ensures err.Some? && old(Future()) != [] ==> src.coupled
    {
      if r == null {
        err := Init();
        if err.Some? {
          return 0, err;
        }
      }
      ghost var before, input := r.stream.done, src.input;
      n, err := r.Read(p);
      if err.None? {
        assert input == input[..n] + input[n..];
        cipher.XoredInPieces(true, r.stream.iv, before, input[..n], input[n..]);
      }
    }

    /** `WriteTo`: everything that is left. */
    method WriteTo(w: Sink) returns (n: nat, err: Option<IoError>)
      requires Valid() && !w.failed && w !in Repr()
      modifies Repr(), w
      ensures !w.failed ==>
                && Valid() && fresh(Repr() - old(Repr()))
                && w.sent == old(w.sent) + old(Future()) && Future() == [] && n == |old(Future())|
      ensures w.failed ==> err.Some?
    {
      if r == null {
        err := Init();
        if err.Some? {
          assert w.sent + [] == w.sent;
          return 0, err;
        }
      }
      n, err := r.WriteTo(w);
    }
  }

  method SendOne(c: ConnWriter, op: SendOp)
    requires c.Valid() && !c.sink.failed
    modifies c.Repr()
    ensures c.Valid() && fresh(c.Repr() - old(c.Repr())) && c.written == old(c.written) + op.bytes
    ensures |c.writeIV| == c.cipher.ivSize && c.sink.sent <= c.Wire(c.written)
    ensures !c.sink.failed ==> c.sink.sent == c.Wire(c.written)
  {
    match op
    case WriteOf(b) =>
      var n, err := c.Write(b);
    case CopyIn(b, fin, coupled) =>
      var r := new Source(b, fin, coupled);
      var n, err := c.ReadFrom(r);
  }

  /** Any mix of writes and copies on a new connection, until one fails. */
  method Send(sink: Sink, cipher: Cipher, ops: seq<SendOp>) returns (ghost iv: seq<byte>)
    requires cipher.Lawful() && sink.sent == [] && !sink.failed
    modifies sink
    ensures sink.sent <= iv + cipher.enc(iv, Sent(ops)) && (ops != [] ==> |iv| == cipher.ivSize)
    ensures !sink.failed && ops != [] ==> sink.sent == iv + cipher.enc(iv, Sent(ops))
    ensures ops == [] ==> sink.sent == [] && !sink.failed
  {
    hide Sent, ConnWriter.Valid;
    var c := new ConnWriter(sink, cipher);
    SentNothing(ops);
    var i := 0;
    while i < |ops| && !sink.failed
      invariant i <= |ops| && fresh(c.Repr() - {sink}) && c.sink == sink && c.cipher == cipher
      invariant c.Valid() && c.written == Sent(ops[..i])
      invariant sink.sent <= c.Wire(c.written)
      invariant i == 0 ==> sink.sent == [] && !sink.failed
      invariant i > 0 ==> |c.writeIV| == cipher.ivSize && (!sink.failed ==> sink.sent == c.Wire(c.written))
      decreases |ops| - i
    {
      SentTake(ops, i);
      SendOne(c, ops[i]);
      i := i + 1;
    }
    iv := c.writeIV;
    SentPrefix(ops, i);
    assert ops[..|ops|] == ops;
    assert Sent(ops) == c.written + Sent(ops)[|c.written|..];
    PrefixCons(iv, cipher.enc(iv, c.written), cipher.enc(iv, Sent(ops)));
  }

  /** A wire cut anywhere decrypts to a prefix of what was sent, and a whole one to all of it. */
  lemma FutureOfWire(cipher: Cipher, iv: seq<byte>, plain: seq<byte>, wire: seq<byte>)
    requires cipher.Lawful() && |iv| == cipher.ivSize && wire <= iv + cipher.enc(iv, plain)
    ensures FutureOf(cipher, wire) <= plain
    ensures wire == iv + cipher.enc(iv, plain) ==> FutureOf(cipher, wire) == plain
  {
    if |wire| >= |iv| {
      assert wire[..|iv|] == iv;
      cipher.PrefixDecrypts(iv, plain, wire[|iv|..]);
    }
  }

  lemma FutureOfNothing(cipher: Cipher)
    requires cipher.Lawful()
    ensures FutureOf(cipher, []) == []
  {
    assert |cipher.dec([], [])| == 0;
    assert FutureOf(cipher, []) == if 0 < cipher.ivSize then [] else cipher.dec([][..0], [][0..]);
  }

  /** What a user of the receiving half may do next: read into a buffer of some size, or copy all to an outlet. */
  datatype ReadOp = ReadInto(size: nat) | CopyOut

  /** One read, and what happens to the bytes that were still to come. */
  method ReadOnce(c: ConnReader, size: nat) returns (out: seq<byte>, ended: bool)
    requires c.Valid()
    modifies c.Repr()
    ensures c.Valid() && fresh(c.Repr() - old(c.Repr()))
    ensures !ended ==> |out| <= size && out + c.Future() == old(c.Future())
    ensures !ended && size > 0 ==>
              out != [] && |c.src.input| < |old(c.src.input)| && (c.src.coupled ==> c.Future() != [])
    ensures ended ==> out == [] && |old(c.Future())| <= size && (old(c.Future()) != [] ==> c.src.coupled)
  {
    hide ConnReader.Valid, ConnReader.Future;
    var p := new byte[size];
    var n, err := c.Read(p);
    out, ended := p[..n], err.Some?;
  }

  /** What has come out so far, and whether that is everything, as far as the operations since the start and
      the kind of connection decide it. `future` is what was to come. */
  ghost predicate Accounted(future: seq<byte>, out: seq<byte>, coupled: bool, last: ReadOp) {
    && out <= future
    && (!coupled || last.CopyOut? ==> out == future)
    && (coupled && last.ReadInto? ==> |future| <= |out| + last.size && (future != [] ==> out != future))
  }

  /** The reads among some operations that have room for something. */
  function RealReads(ops: seq<ReadOp>): nat {
    if ops == [] then 0
    else RealReads(ops[..|ops| - 1]) + if ops[|ops| - 1].ReadInto? && ops[|ops| - 1].size > 0 then 1 else 0
  }

  lemma AccountForRead(future: seq<byte>, out: seq<byte>, left: seq<byte>, coupled: bool, size: nat)
    requires out + left == future && |left| <= size && (left != [] ==> coupled)
    requires coupled && left == [] ==> future == []
    ensures Accounted(future, out, coupled, ReadInto(size))
  {
    if left == [] {
      assert out + left == out;
    } else {
      assert |out| < |future|;
    }
  }

  /** One operation on a connection that is still open, when `out` has been read of `future`. */
  method Perform(c: ConnReader, op: ReadOp, outlet: Sink, ghost future: seq<byte>, out: seq<byte>)
      returns (now: seq<byte>, ended: bool)
    requires c.Valid() && outlet !in c.Repr() && outlet.sent == [] && !outlet.failed
    requires out + c.Future() == future && (c.src.coupled && c.Future() == [] ==> future == [])
    modifies c.Repr(), outlet
    ensures !ended ==>
              && c.Valid() && fresh(c.Repr() - old(c.Repr())) && op.ReadInto?
              && outlet.sent == [] && !outlet.failed
              && now + c.Future() == future && (c.src.coupled && c.Future() == [] ==> future == [])
              && out <= now && (op.size > 0 ==> |now| > |out|)
    ensures ended && !outlet.failed ==> Accounted(future, now + outlet.sent, c.src.coupled, op)
    ensures outlet.failed ==> ended && op.CopyOut? && now == out
  {
    hide ConnReader.Valid, ConnReader.Future;
    match op
    case ReadInto(size) =>
      ghost var left := c.Future();
      var more;
      more, ended := ReadOnce(c, size);
      now := out + more;
      if ended {
        AccountForRead(future, out, left, c.src.coupled, size);
        assert now + outlet.sent == out;
      } else {
        Assoc(out, more, c.Future());
        assert size == 0 ==> more == [] && [] + c.Future() == c.Future();
      }
    case CopyOut =>
      ghost var left := c.Future();
      now, ended := out, true;
      var n, err := c.WriteTo(outlet);
      assert [] + left == left;
  }

  lemma StartsWith(c: ConnReader)
    requires c.Valid() && c.r == null
    ensures c.Future() == FutureOf(c.cipher, c.src.input)
  {
  }

  /** Any mix of reads of any sizes, and a copy to an outlet, until the stream ends: `last` operations were
      performed. What comes out is a prefix of the plaintext and, once the stream has ended, all of it exactly
      when the connection is not coupled or the last operation was the copy: a read then loses the last
      fragment, and no more than it had room for. A copy ends the stream, and so do reads in the end. */
  method Receive(cipher: Cipher, wire: seq<byte>, fin: IoError, coupled: bool, ops: seq<ReadOp>, outlet: Sink)
      returns (out: seq<byte>, ended: bool, last: nat)
    requires cipher.Lawful() && outlet.sent == [] && !outlet.failed
    modifies outlet
    ensures last <= |ops|
    ensures ended ==> last > 0
    ensures ended && !outlet.failed ==>
              Accounted(FutureOf(cipher, wire), out + outlet.sent, coupled, ops[last - 1])
    ensures !ended ==>
              && last == |ops| && CopyOut !in ops && outlet.sent == [] && !outlet.failed
              && RealReads(ops) <= |out| && out <= FutureOf(cipher, wire)
    ensures outlet.failed ==> CopyOut in ops
  {
    hide ConnReader.Future, FutureOf, ConnReader.Valid;
    ghost var future := FutureOf(cipher, wire);
    var src := new Source(wire, fin, coupled);
    var c := new ConnReader(src, cipher);
    StartsWith(c);
    out, ended, last := [], false, 0;
    while last < |ops| && !ended
      invariant last <= |ops| && (ended ==> last > 0)
      invariant !ended ==>
                  && c.Valid() && fresh(c.Repr()) && c.src == src && outlet.sent == [] && !outlet.failed
                  && out + c.Future() == future && (coupled && c.Future() == [] ==> future == [])
                  && RealReads(ops[..last]) <= |out| && CopyOut !in ops[..last]
      invariant ended && !outlet.failed ==> Accounted(future, out + outlet.sent, coupled, ops[last - 1])
      invariant outlet.failed ==> ended && CopyOut in ops
      decreases |ops| - last
    {
      assert ops[..last + 1][..last] == ops[..last];
      out, ended := Perform(c, ops[last], outlet, future, out);
      last := last + 1;
    }
    assert ops[..|ops|] == ops;
    assert ended || out <= future;
  }

  /** End to end: whatever is sent and wherever it is cut, what comes out is a prefix of what went in; and when
      nothing failed or was cut and the stream has ended, it is all of it exactly under the condition above. */
  method RoundTrip(sink: Sink, outlet: Sink, cipher: Cipher, sends: seq<SendOp>, cut: nat, fin: IoError,
                   coupled: bool, pulls: seq<ReadOp>)
      returns (out: seq<byte>, ended: bool, last: nat, ghost iv: seq<byte>)
    requires cipher.Lawful() && sink != outlet
    requires sink.sent == [] && !sink.failed && outlet.sent == [] && !outlet.failed
    modifies sink, outlet
    ensures sink.sent <= iv + cipher.enc(iv, Sent(sends)) && (sends != [] ==> |iv| == cipher.ivSize)
    ensures !sink.failed && sends != [] ==> sink.sent == iv + cipher.enc(iv, Sent(sends))
    ensures sends == [] ==> sink.sent == [] && !sink.failed
    ensures !outlet.failed ==> out + outlet.sent <= Sent(sends)
    ensures last <= |pulls| && (ended ==> last > 0) && (outlet.failed ==> CopyOut in pulls)
    ensures ended && !outlet.failed && !sink.failed && |sink.sent| <= cut ==>
              Accounted(Sent(sends), out + outlet.sent, coupled, pulls[last - 1])
    ensures !ended ==> CopyOut !in pulls && last == |pulls| && RealReads(pulls) <= |out|
  {
    iv := Send(sink, cipher, sends);
    var wire := sink.sent[..Min(cut, |sink.sent|)];
    if sends != [] {
      FutureOfWire(cipher, iv, Sent(sends), wire);
    } else {
      FutureOfNothing(cipher);
    }
    out, ended, last := Receive(cipher, wire, fin, coupled, pulls, outlet);
    if !ended {
      assert out + outlet.sent == out;
    }
  }

  /** Reading until an error, as `io.ReadAll` does, into buffers of any size. */
  method ReadAll(c: ConnReader, size: nat) returns (out: seq<byte>)
    requires c.Valid() && size > 0
    modifies c.Repr()
    ensures Accounted(old(c.Future()), out, c.src.coupled, ReadInto(size))
  {
    hide ConnReader.Valid, ConnReader.Future;
    ghost var future := c.Future();
    out := [];
    assert [] + future == future;
    var ended := false;
    while !ended
      invariant !ended ==>
                  && c.Valid() && fresh(c.Repr() - old(c.Repr())) && out + c.Future() == future
                  && (c.src.coupled && c.Future() == [] ==> future == [])
      invariant ended ==> Accounted(future, out, c.src.coupled, ReadInto(size))
      decreases !ended, |c.src.input|
    {
      ghost var left := c.Future();
      var more;
      more, ended := ReadOnce(c, size);
      if ended {
        AccountForRead(future, out, left, c.src.coupled, size);
      } else {
        Assoc(out, more, c.Future());
        out := out + more;
      }
    }
  }

  /** End to end with plain reads: unless the sending side fails, everything sent comes out, if and only if the
      receiving connection is not coupled or nothing was sent; a coupled one loses the end, at most one buffer. */
  method Deliver(sink: Sink, cipher: Cipher, sends: seq<SendOp>, fin: IoError, coupled: bool, size: nat)
      returns (out: seq<byte>, ghost iv: seq<byte>)
    requires cipher.Lawful() && size > 0 && sink.sent == [] && !sink.failed
    modifies sink
    ensures sink.sent <= iv + cipher.enc(iv, Sent(sends)) && (sends != [] ==> |iv| == cipher.ivSize)
    ensures !sink.failed && sends != [] ==> sink.sent == iv + cipher.enc(iv, Sent(sends))
    ensures sends == [] ==> sink.sent == [] && !sink.failed
    ensures out <= Sent(sends)
    ensures !sink.failed ==> (out == Sent(sends) <==> !coupled || Sent(sends) == [])
    ensures !sink.failed ==> |Sent(sends)| <= |out| + size
  {
    iv := Send(sink, cipher, sends);
    if sends != [] {
      FutureOfWire(cipher, iv, Sent(sends), sink.sent);
    } else {
      FutureOfNothing(cipher);
    }
    var src := new Source(sink.sent, fin, coupled);
    var c := new ConnReader(src, cipher);
    StartsWith(c);
    out := ReadAll(c, size);
  }
}

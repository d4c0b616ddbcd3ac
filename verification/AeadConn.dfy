/** The connection as its users see it: a salt in front of each direction, created on first use, and the
    end-to-end round trip. */
module AeadConn {
  import opened Bytes
  import opened Transport
  import opened AeadFraming
  import opened AeadStream

  /** A cipher turns a salt into an AEAD, the same one for both directions. */
  datatype Cipher = Cipher(saltSize: nat, aead: seq<byte> -> Aead) {
    ghost predicate Lawful() {
      forall salt :: aead(salt).Lawful()
    }

    /** One salt, then the records. */
    function Wire(salt: seq<byte>, fs: seq<Frame>): seq<byte> {
      salt + Encode(aead(salt), 0, fs)
    }

    /** What a fresh reader will deliver from a stream. */
    function FutureOf(input: seq<byte>, fin: IoError): seq<byte>
      requires Lawful()
    {
      if |input| < saltSize then [] else Plain(aead(input[..saltSize]), 0, input[saltSize..], fin)
    }

    predicate CleanOf(input: seq<byte>, fin: IoError)
      requires Lawful()
    {
      |input| < saltSize || Clean(aead(input[..saltSize]), 0, input[saltSize..], fin)
    }

    lemma FutureOfWire(salt: seq<byte>, fs: seq<Frame>, input: seq<byte>, fin: IoError)
      requires Lawful() && |salt| == saltSize && Fits(fs) && Deliverable(fs)
      requires input <= Wire(salt, fs)
      ensures CleanOf(input, fin) && FutureOf(input, fin) <= Payloads(fs)
      ensures input == Wire(salt, fs) ==> FutureOf(input, fin) == Payloads(fs)
    {
      if saltSize <= |input| {
        assert input[..saltSize] == salt;
        PlainOfDeliverable(aead(salt), fs, input[saltSize..], fin);
      }
    }
  }

  /** The sending half of a connection. */
  class ConnWriter {
    const cipher: Cipher
    const sink: Sink
    ghost var salt: seq<byte>
    ghost var written: seq<byte> // everything given to Write so far
    var w: Writer?

    ghost function Repr(): set<object>
      reads this
    {
      {this, sink} + if w == null then {} else {w, w.nonce}
    }

    ghost predicate Valid()
      reads this, sink, w, if w == null then {} else {w.nonce}
    {
      && cipher.Lawful()
      && |salt| == cipher.saltSize
      && Fits(Frames())
      && Payloads(Frames()) <= written && (!sink.failed ==> Payloads(Frames()) == written)
      && (w == null ==> sink.sent == [] || sink.failed)
      && (w != null ==> w.sink == sink && w.Valid() && w.aead == cipher.aead(salt) && w.base == salt)
    }

    ghost function Frames(): seq<Frame>
      reads this, w
    {
      if w == null then [] else w.frames
    }

    constructor (sink: Sink, cipher: Cipher)
      requires cipher.Lawful() && sink.sent == [] && !sink.failed
      ensures Valid() && this.sink == sink && this.cipher == cipher && w == null
      ensures written == []
    {
      this.sink, this.cipher, w, written := sink, cipher, null, [];
      salt := seq(cipher.saltSize, _ => 0);
    }

    /** `initWriter`: draws a salt, sends it, and keys the writer with it. */
    method Init() returns (err: Option<IoError>)
      requires Valid() && !sink.failed && w == null
      modifies this`w, this`salt, sink
      ensures Valid() && fresh(Repr() - old(Repr())) && Frames() == []
      ensures sink.failed == err.Some? && (w == null) == err.Some?
      ensures sink.sent <= cipher.Wire(salt, [])
    {
      hide Encode, Fits, Payloads, Plain, Clean, Nonce.At;
      NoPayload();
      var fromRandom := *;
      if |fromRandom| != cipher.saltSize {
        fromRandom := seq(cipher.saltSize, _ => 0);
      }
      salt := fromRandom;
      var n, e := sink.Write(fromRandom);
      err := e;
      if err.None? {
        w := new Writer(sink, cipher.aead(fromRandom));
      }
    }

    /** `Write`: while nothing fails the wire is one salt followed by the records of every write so far,
        exactly those its data is cut into; a failing write leaves a prefix of that. */
    method Write(b: seq<byte>) returns (n: nat, err: Option<IoError>)
      requires Valid() && !sink.failed
      modifies Repr()
      ensures Valid() && fresh(Repr() - old(Repr()))
      ensures sink.failed == err.Some? && written == old(written) + b
      ensures sink.sent <= cipher.Wire(salt, Frames())
      ensures err.None? ==> n == |b| && w != null && sink.sent == cipher.Wire(salt, Frames())
      ensures old(Frames()) <= Frames() && Frames()[|old(Frames())|..] <= FramesOf(b)
      ensures err.None? ==> Frames() == old(Frames()) + FramesOf(b)
      ensures old(Aligned(Frames())) ==> Aligned(Frames())
    {
      hide Payloads, Encode, FramesOf, Fits, Aligned, Writer.Valid;
      if w == null {
        err := Init();
        if err.Some? {
          written := written + b;
          return 0, err;
        }
      }
      ghost var before := Frames();
      ghost var done;
      n, err, done := w.Write(b);
      w.OnWire();
      written := written + b;
      Extends(before, done, b);
      PrefixCons(Payloads(before), Payloads(done), b);
    }

    /** `ReadFrom`: the records of everything read are added, the last of which holds no data unless the
        source is coupled and had something left. */
    method ReadFrom(r: Source) returns (n: nat, err: Option<IoError>)
      requires Valid() && !sink.failed && r !in Repr()
      modifies Repr(), r
      ensures Valid() && fresh(Repr() - old(Repr())) && written == old(written) + old(r.input)
      ensures sink.sent <= cipher.Wire(salt, Frames())
      ensures sink.failed ==> err.Some?
      ensures !sink.failed ==>
                && n == |old(r.input)| && r.input == [] && err == (if r.fin == Eof then None else Some(r.fin))
                && w != null && sink.sent == cipher.Wire(salt, Frames())
                && |Frames()| > |old(Frames())|
                && (Frames()[|Frames()| - 1] == Data([]) <==> !r.coupled || old(r.input) == [])
      ensures old(Aligned(Frames())) ==> Deliverable(Frames())
      ensures old(Aligned(Frames())) && !sink.failed ==>
                (Aligned(Frames()) <==> r.coupled && old(r.input) != [])
    {
      hide Payloads, Encode, Fits, Aligned, CarryData, Writer.Valid;
      ghost var all := r.input;
      if w == null {
        err := Init();
        if err.Some? {
          written := written + all;
          return 0, err;
        }
      }
      ghost var before := Frames();
      ghost var full, last;
      n, err, full, last := w.ReadFrom(r);
      w.OnWire();
      written := written + all;
      ExtendsByRecords(before, full, last, all[..n]);
      assert all[..n] <= all && all[..|all|] == all;
      PrefixCons(Payloads(before), all[..n], all);
    }

    static lemma ExtendsByRecords(before: seq<Frame>, full: seq<Frame>, last: Frame, b: seq<byte>)
      requires Fits(before) && CarryData(full) && last.Data? && |last.payload| <= PAYLOAD_MAX
      requires Payloads(full) + last.payload == b
      ensures Fits(before + full + [last]) && Payloads(before + full + [last]) == Payloads(before) + b
      ensures Aligned(before) ==> Deliverable(before + full + [last])
      ensures Aligned(before) ==> (Aligned(before + full + [last]) <==> last != Data([]))
    {
      hide Payloads;
      CountAppend(before, full);
      CountAppend(before + full, [last]);
      OnePayload(last);
      Assoc(Payloads(before), Payloads(full), last.payload);
      var all := before + full + [last];
      assert all[..|all| - 1] == before + full && all[|all| - 1] == last;
    }

    static lemma OnePayload(f: Frame)
      ensures Payloads([f]) == Payload(f)
    {
      assert [f][1..] == [];
    }

    static lemma Extends(before: seq<Frame>, done: seq<Frame>, b: seq<byte>)
      requires Fits(before) && done <= FramesOf(b)
      ensures Fits(before + done) && (Aligned(before) ==> Aligned(before + done))
      ensures Payloads(before + done) == Payloads(before) + Payloads(done)
      ensures Payloads(done) <= b && (done == FramesOf(b) ==> Payloads(done) == b)
    {
      hide Payloads, FramesOf;
      FramesOfSound(b);
      CountAppend(before, done);
      CountAppend(done, FramesOf(b)[|done|..]);
      assert FramesOf(b) == done + FramesOf(b)[|done|..];
    }
  }

  /** The receiving half of a connection. */
  class ConnReader {
    const cipher: Cipher
    const src: Source
    var r: Reader?

    ghost function Repr(): set<object>
      reads this, r
    {
      {this, src} + if r == null then {} else r.Repr()
    }

    ghost predicate Valid()
      reads this, src, r, if r == null then {} else r.Repr()
    {
      && cipher.Lawful()
      && (r != null ==> r.Valid() && r.src == src)
    }

    /** Everything this connection will still deliver. */
    ghost function Future(): seq<byte>
      requires Valid()
      reads this, src, r, if r == null then {} else r.Repr()
    {
      if r == null then cipher.FutureOf(src.input, src.fin) else r.Future()
    }

    /** What a copy that the sink does not stop will report. A stream that ends before the salt is whole is an error,
        even a plain end. */
    ghost function Outcome(): Option<CopyError>
      requires Valid()
      reads this, src, r, if r == null then {} else r.Repr()
    {
      if r != null then CopyEnd(r.Ending())
      else if |src.input| < cipher.saltSize then
        Some(SourceError(Io(FullError(cipher.saltSize, |src.input|, src.fin).value)))
      else CopyEnd(Stop(cipher.aead(src.input[..cipher.saltSize]), 0, src.input[cipher.saltSize..], src.fin))
    }

    ghost predicate Untampered()
      requires Valid()
      reads this, src, r, if r == null then {} else r.Repr()
    {
      if r == null then cipher.CleanOf(src.input, src.fin) else r.Untampered()
    }

    ghost function Held(): nat
      requires Valid()
      reads this, src, r, if r == null then {} else r.Repr()
    {
      if r == null then 0 else r.Held()
    }

    constructor (src: Source, cipher: Cipher)
      requires cipher.Lawful()
      ensures Valid() && this.src == src && this.cipher == cipher && r == null
    {
      this.src, this.cipher, r := src, cipher, null;
    }

    /** `initReader`: the first `saltSize` bytes of the stream key the reader. */
    method Init() returns (err: Option<IoError>)
      requires Valid() && r == null
      modifies this, src
      ensures Valid() && fresh(Repr() - old(Repr())) && (r == null) == err.Some?
      ensures Future() == old(Future()) && Untampered() == old(Untampered())
      ensures err.Some? ==> Future() == [] && old(Outcome()) == Some(SourceError(Io(err.value)))
      ensures err.None? ==> Outcome() == old(Outcome())
      ensures err.None? ==> |src.input| <= |old(src.input)| && Held() == 0
    {
      var salt := new byte[cipher.saltSize];
      var n;
      n, err := ReadFull(src, salt, 0, cipher.saltSize);
      if err.None? {
        assert salt[..] == salt[0..0 + n];
        r := new Reader(src, cipher.aead(salt[..]));
      }
    }

    method Read(p: array<byte>) returns (n: nat, err: Option<ReadError>)
      requires Valid() && p !in Repr()
      modifies Repr(), p
      ensures Valid() && fresh(Repr() - old(Repr()))
      ensures n <= p.Length && (err.Some? ==> n == 0)
      ensures err.None? ==> p[..n] + Future() == old(Future())
      ensures err.Some? && err != Some(BadTag) ==> Future() == old(Future())
      ensures err.Some? && err.value.Io? ==> Future() == []
      ensures old(Untampered()) ==> Untampered() && err != Some(BadTag)
      ensures p.Length > 0 && (err.None? || !err.value.Io?) ==>
                || |src.input| < |old(src.input)|
                || (src.input == old(src.input) && Held() < old(Held()))
    {
      hide Reader.Valid, Reader.Future, Reader.Untampered, Reader.Held;
      if r == null {
        var e := Init();
        if e.Some? {
          return 0, Some(Io(e.value));
        }
      }
      n, err := r.Read(p);
    }

    method WriteTo(w: Sink) returns (n: nat, err: Option<CopyError>, ghost out: seq<byte>)
      requires Valid()
      modifies Repr(), w
      ensures Valid() && fresh(Repr() - old(Repr()))
      ensures w.sent == old(w.sent) + out && n == |out|
      ensures err != Some(SourceError(BadTag)) ==> out + Future() == old(Future())
      ensures err.None? || (err.value.SourceError? && err.value.read.Io?) ==> Future() == []
      ensures old(Untampered()) ==> Untampered() && err != Some(SourceError(BadTag))
      ensures w.failed == (old(w.failed) || (err.Some? && err.value.SinkError?))
      ensures err == Some(SourceError(ZeroChunk)) ==> |src.input| < |old(src.input)|
      ensures err.None? || err.value.SourceError? ==> err == old(Outcome())
    {
      hide Reader.Valid, Reader.Future, Reader.Untampered, Reader.Ending;
      if r == null {
        var e := Init();
        if e.Some? {
          return 0, Some(SourceError(Io(e.value))), [];
        }
      }
      n, err, out := r.WriteTo(w);
    }
  }

  /** What a user of the receiving half may do next: read into a buffer of some size, or copy to a sink. */
  datatype Op = ReadInto(size: nat) | CopyOut

  method Perform(c: ConnReader, op: Op) returns (out: seq<byte>, ended: bool)
    requires c.Valid() && c.Untampered()
    modifies c.Repr()
    ensures c.Valid() && fresh(c.Repr() - old(c.Repr())) && c.Untampered()
    ensures out + c.Future() == old(c.Future())
    ensures ended ==> c.Future() == []
  {
    match op
    case ReadInto(size) =>
      out, ended := ReadOnce(c, size);
    case CopyOut =>
      var w := new Sink();
      ghost var copied;
      var n, err;
      n, err, copied := c.WriteTo(w);
      assert w.sent == copied;
      out := w.sent;
      ended := err.None?;
  }

  method ReadOnce(c: ConnReader, size: nat) returns (out: seq<byte>, ended: bool)
    requires c.Valid() && c.Untampered()
    modifies c.Repr()
    ensures c.Valid() && fresh(c.Repr() - old(c.Repr())) && c.Untampered()
    ensures out + c.Future() == old(c.Future())
    ensures ended ==> c.Future() == []
    ensures size > 0 && !ended ==>
              || |c.src.input| < |old(c.src.input)|
              || (c.src.input == old(c.src.input) && c.Held() < old(c.Held()))
  {
    hide ConnReader.Valid, ConnReader.Future, ConnReader.Untampered, ConnReader.Held;
    var p := new byte[size];
    var n, err := c.Read(p);
    out := p[..n];
    ended := err.Some? && err.value.Io?;
  }

  /** Any mix of reads, of any sizes, and copies, to sinks that take any part of what they are offered. */
  method Pull(c: ConnReader, ops: seq<Op>) returns (out: seq<byte>, drained: bool)
    requires c.Valid() && c.Untampered()
    modifies c.Repr()
    ensures c.Valid() && fresh(c.Repr() - old(c.Repr())) && c.Untampered()
    ensures out + c.Future() == old(c.Future())
    ensures drained ==> c.Future() == []
  {
    hide ConnReader.Valid, ConnReader.Future, ConnReader.Untampered, ConnReader.Held;
    out, drained := [], false;
    for i := 0 to |ops|
      invariant c.Valid() && fresh(c.Repr() - old(c.Repr())) && c.Untampered()
      invariant out + c.Future() == old(c.Future())
      invariant drained ==> c.Future() == []
    {
      var more, ended := Perform(c, ops[i]);
      Assoc(out, more, c.Future());
      out, drained := out + more, drained || ended;
    }
  }

  /** Any sequence of writes, the empty ones included, until one fails, on a connection whose counters are in step. */
  method WriteAll(c: ConnWriter, writes: seq<seq<byte>>)
    requires c.Valid() && !c.sink.failed && Aligned(c.Frames())
    modifies c.Repr()
    ensures c.Valid() && fresh(c.Repr() - old(c.Repr())) && Aligned(c.Frames())
    ensures c.written <= old(c.written) + Flatten(writes)
    ensures writes != [] ==> c.sink.sent <= c.cipher.Wire(c.salt, c.Frames())
    ensures !c.sink.failed ==>
              c.written == old(c.written) + Flatten(writes) && c.Frames() == old(c.Frames()) + FramesOfAll(writes)
    ensures !c.sink.failed && writes != [] ==> c.w != null && c.sink.sent == c.cipher.Wire(c.salt, c.Frames())
    ensures writes == [] ==> !c.sink.failed && c.w == old(c.w) && c.sink.sent == old(c.sink.sent)
  {
    hide Payloads, Encode, Fits, FramesOf, Aligned, ConnWriter.Valid, ConnWriter.Frames;
    ghost var frames, written := c.Frames(), c.written;
    var i := 0;
    while i < |writes| && !c.sink.failed
      invariant i <= |writes| && fresh(c.Repr() - old(c.Repr()))
      invariant c.Valid() && Aligned(c.Frames())
      invariant c.written == written + Flatten(writes[..i])
      invariant i > 0 ==> c.sink.sent <= c.cipher.Wire(c.salt, c.Frames())
      invariant i == 0 ==> !c.sink.failed && c.w == old(c.w) && c.sink.sent == old(c.sink.sent)
      invariant !c.sink.failed ==> c.Frames() == frames + FramesOfAll(writes[..i])
      invariant i > 0 && !c.sink.failed ==> c.w != null && c.sink.sent == c.cipher.Wire(c.salt, c.Frames())
      decreases |writes| - i
    {
      hide Flatten, FramesOfAll;
      OneMore(writes, i, written, frames);
      var n, err := c.Write(writes[i]);
      i := i + 1;
    }
    FlattenPrefix(writes, i);
    assert writes[..|writes|] == writes;
    PrefixCons(written, Flatten(writes[..i]), Flatten(writes));
  }

  lemma OneMore(writes: seq<seq<byte>>, i: nat, written: seq<byte>, frames: seq<Frame>)
    requires i < |writes|
    ensures (written + Flatten(writes[..i])) + writes[i] == written + Flatten(writes[..i + 1])
    ensures (frames + FramesOfAll(writes[..i])) + FramesOf(writes[i]) == frames + FramesOfAll(writes[..i + 1])
  {
    hide FramesOf, Flatten;
    FlattenTake(writes, i);
    assert writes[..i + 1][..i] == writes[..i];
    Assoc(written, Flatten(writes[..i]), writes[i]);
  }

  /** On a new connection: the wire is a prefix of one salt and the records of what was written; when nothing
      failed it is all of it, record by record the cuts of the writes, and its length is the salt's and the cost
      of each write. */
  method Send(sink: Sink, cipher: Cipher, writes: seq<seq<byte>>) returns (ghost salt: seq<byte>, ghost fs: seq<Frame>)
    requires cipher.Lawful() && sink.sent == [] && !sink.failed
    modifies sink
    ensures |salt| == cipher.saltSize && Fits(fs) && Aligned(fs)
    ensures sink.sent <= cipher.Wire(salt, fs) && Payloads(fs) <= Flatten(writes)
    ensures !sink.failed ==> Payloads(fs) == Flatten(writes) && fs == FramesOfAll(writes)
    ensures !sink.failed && writes != [] ==>
              && sink.sent == cipher.Wire(salt, fs)
              && |sink.sent| == cipher.saltSize + TotalCost(cipher.aead(salt), writes)
  {
    hide Encode, Fits, FramesOf, EncodeFrame;
    var c := new ConnWriter(sink, cipher);
    WriteAll(c, writes);
    salt, fs := c.salt, c.Frames();
    TotalLength(cipher.aead(salt), writes);
  }

  /** After this the counters of the two sides agree. */
  predicate KeepsStep(op: SendOp) {
    op.WriteOf? || (op.coupled && op.bytes != [])
  }

  /** Only the last of these may leave the counters out of step. */
  predicate InStep(ops: seq<SendOp>) {
    forall i :: 0 <= i < |ops| - 1 ==> KeepsStep(ops[i])
  }

  method SendOne(c: ConnWriter, op: SendOp)
    requires c.Valid() && !c.sink.failed && Aligned(c.Frames())
    modifies c.Repr()
    ensures c.Valid() && fresh(c.Repr() - old(c.Repr())) && c.written == old(c.written) + op.bytes
    ensures c.sink.sent <= c.cipher.Wire(c.salt, c.Frames()) && Deliverable(c.Frames())
    ensures !c.sink.failed ==>
              c.sink.sent == c.cipher.Wire(c.salt, c.Frames()) && (Aligned(c.Frames()) <==> KeepsStep(op))
  {
    hide Encode, Fits, Aligned, FramesOf;
    match op
    case WriteOf(b) =>
      var n, err := c.Write(b);
    case CopyIn(b, fin, coupled) =>
      var r := new Source(b, fin, coupled);
      var n, err := c.ReadFrom(r);
  }

  /** Any mix of writes and copies on a new connection, until one fails: what is on the wire reads back in full. */
  method SendMixed(sink: Sink, cipher: Cipher, ops: seq<SendOp>) returns (ghost salt: seq<byte>, ghost fs: seq<Frame>)
    requires cipher.Lawful() && sink.sent == [] && !sink.failed && InStep(ops)
    modifies sink
    ensures |salt| == cipher.saltSize && Fits(fs) && Deliverable(fs)
    ensures sink.sent <= cipher.Wire(salt, fs) && Payloads(fs) <= Sent(ops)
    ensures !sink.failed ==>
              && Payloads(fs) == Sent(ops) && (ops != [] ==> sink.sent == cipher.Wire(salt, fs))
              && (Aligned(fs) <==> ops == [] || KeepsStep(ops[|ops| - 1]))
    ensures ops == [] ==> sink.sent == [] && !sink.failed
  {
    hide Payloads, Encode, EncodeFrame, Fits, Aligned, Deliverable, Sent;
    var c := new ConnWriter(sink, cipher);
    SentNothing(ops);
    NothingIsAligned();
    NothingIsDeliverable();
    var i := 0;
    while i < |ops| && !sink.failed
      invariant i <= |ops| && fresh(c.Repr() - {sink}) && c.sink == sink && c.cipher == cipher
      invariant c.Valid() && c.written == Sent(ops[..i])
      invariant sink.sent <= cipher.Wire(c.salt, c.Frames()) && Deliverable(c.Frames())
      invariant i == 0 ==> sink.sent == [] && !sink.failed
      invariant i > 0 && !sink.failed ==> sink.sent == cipher.Wire(c.salt, c.Frames())
      invariant !sink.failed ==> (Aligned(c.Frames()) <==> i == 0 || KeepsStep(ops[i - 1]))
      decreases |ops| - i
    {
      hide ConnWriter.Valid, ConnWriter.Frames;
      SentTake(ops, i);
      SendOne(c, ops[i]);
      i := i + 1;
    }
    SentPrefix(ops, i);
    assert ops[..|ops|] == ops;
    salt, fs := c.salt, c.Frames();
  }

  lemma NothingIsDeliverable()
    ensures Deliverable([])
  {
  }

  /** Reading until the stream ends, as `io.ReadAll` does, but past empty records: everything arrives. */
  method ReadAll(c: ConnReader, size: nat) returns (out: seq<byte>)
    requires c.Valid() && c.Untampered() && size > 0
    modifies c.Repr()
    ensures c.Valid() && fresh(c.Repr() - old(c.Repr()))
    ensures out == old(c.Future())
  {
    hide ConnReader.Valid, ConnReader.Future, ConnReader.Untampered, ConnReader.Held;
    out := [];
    var ended := false;
    while !ended
      invariant c.Valid() && fresh(c.Repr() - old(c.Repr())) && c.Untampered()
      invariant out + c.Future() == old(c.Future())
      invariant ended ==> c.Future() == []
      decreases !ended, |c.src.input|, c.Held()
    {
      var more;
      more, ended := ReadOnce(c, size);
      Assoc(out, more, c.Future());
      out := out + more;
    }
  }

  /** Copying until the stream ends or the outlet fails; a copy that stops at an empty record is resumed. */
  method CopyAll(c: ConnReader, outlet: Sink)
    requires c.Valid() && c.Untampered() && outlet !in c.Repr()
    modifies c.Repr(), outlet
    ensures old(outlet.sent) <= outlet.sent <= old(outlet.sent) + old(c.Future())
    ensures !outlet.failed ==> outlet.sent == old(outlet.sent) + old(c.Future())
  {
    hide ConnReader.Valid, ConnReader.Future, ConnReader.Untampered;
    ghost var moved: seq<byte> := [];
    var ended := false;
    while !ended
      invariant c.Valid() && fresh(c.Repr() - old(c.Repr())) && c.Untampered()
      invariant outlet.sent == old(outlet.sent) + moved && moved + c.Future() == old(c.Future())
      invariant ended && !outlet.failed ==> c.Future() == []
      decreases !ended, |c.src.input|
    {
      var n, err;
      ghost var more;
      n, err, more := c.WriteTo(outlet);
      Assoc(old(outlet.sent), moved, more);
      Assoc(moved, more, c.Future());
      moved := moved + more;
      ended := err != Some(SourceError(ZeroChunk));
    }
  }

  /** Any mix of reads and copies on a new connection that receives `wire`, and then the rest into an outlet. */
  method Receive(cipher: Cipher, wire: seq<byte>, fin: IoError, coupled: bool, ops: seq<Op>, outlet: Sink)
      returns (out: seq<byte>)
    requires cipher.Lawful() && cipher.CleanOf(wire, fin) && outlet.sent == []
    modifies outlet
    ensures out + outlet.sent <= cipher.FutureOf(wire, fin)
    ensures !outlet.failed ==> out + outlet.sent == cipher.FutureOf(wire, fin)
  {
    hide Plain, Clean;
    var src := new Source(wire, fin, coupled);
    var c := new ConnReader(src, cipher);
    var drained;
    out, drained := Pull(c, ops);
    ghost var rest := c.Future();
    CopyAll(c, outlet);
    PrefixCons(out, outlet.sent, rest);
  }

  /** End to end: whatever is written and copied in, wherever the sending side is cut off, however the bytes are
      fragmented and whatever mix of reads and copies is made before the rest is copied out, what comes out is a
      prefix of what went in; and all of it, when nothing failed or was cut. A zero-length record at the very end
      costs nothing. */
  method RoundTrip(sink: Sink, outlet: Sink, cipher: Cipher, sends: seq<SendOp>, cut: nat, fin: IoError,
                   coupled: bool, ops: seq<Op>)
      returns (out: seq<byte>, ghost salt: seq<byte>, ghost fs: seq<Frame>)
    requires cipher.Lawful() && sink != outlet && InStep(sends)
    requires sink.sent == [] && !sink.failed && outlet.sent == [] && !outlet.failed
    modifies sink, outlet
    ensures |salt| == cipher.saltSize && Fits(fs) && Deliverable(fs)
    ensures sink.sent <= cipher.Wire(salt, fs) && Payloads(fs) <= Sent(sends)
    ensures !sink.failed ==> Payloads(fs) == Sent(sends) && (sends != [] ==> sink.sent == cipher.Wire(salt, fs))
    ensures sends == [] ==> sink.sent == [] && !sink.failed
    ensures out + outlet.sent <= Sent(sends)
    ensures !sink.failed && !outlet.failed && |sink.sent| <= cut ==> out + outlet.sent == Sent(sends)
  {
    hide Payloads, Encode, Fits, Plain, Clean, Deliverable;
    salt, fs := SendMixed(sink, cipher, sends);
    var wire := sink.sent[..Min(cut, |sink.sent|)];
    SentNothing(sends);
    cipher.FutureOfWire(salt, fs, wire, fin);
    out := Receive(cipher, wire, fin, coupled, ops, outlet);
  }

  /** End to end without loss: unless the sending side fails, whatever is written and copied in comes out, whole,
      into buffers of any size. */
  method Deliver(sink: Sink, cipher: Cipher, sends: seq<SendOp>, fin: IoError, coupled: bool, size: nat)
      returns (out: seq<byte>, ghost salt: seq<byte>, ghost fs: seq<Frame>)
    requires cipher.Lawful() && size > 0 && sink.sent == [] && !sink.failed && InStep(sends)
    modifies sink
    ensures |salt| == cipher.saltSize && Fits(fs) && Deliverable(fs)
    ensures sink.sent <= cipher.Wire(salt, fs) && Payloads(fs) <= Sent(sends)
    ensures !sink.failed ==> Payloads(fs) == Sent(sends) && (sends != [] ==> sink.sent == cipher.Wire(salt, fs))
    ensures sends == [] ==> sink.sent == [] && !sink.failed
    ensures out <= Sent(sends)
    ensures !sink.failed ==> out == Sent(sends)
  {
    hide Payloads, Encode, Fits, Plain, Clean, Deliverable;
    salt, fs := SendMixed(sink, cipher, sends);
    SentNothing(sends);
    cipher.FutureOfWire(salt, fs, sink.sent, fin);
    var src := new Source(sink.sent, fin, coupled);
    var c := new ConnReader(src, cipher);
    out := ReadAll(c, size);
  }
}

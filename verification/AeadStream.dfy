/** The AEAD connection: a writer and a reader that bump a nonce array in place, and the salt that
    keys them. */
module AeadStream {
  import opened Bytes
  import opened Transport
  import opened AeadFraming
  import Nonce

  /** Capacity of the pooled buffer that `buffer.Get(BUF_SIZE)` hands out. */
  const BUF_CAP := 32 * 1024

  lemma {:induction false} ZeroNonce(size: nat)
    ensures Nonce.At(0, size) == seq(size, _ => 0)
  {
    if size > 0 {
      ZeroNonce(size - 1);
      assert seq(size, _ => 0 as byte) == [0] + seq(size - 1, _ => 0);
    }
  }

  /** The counter array of a writer or reader that has sealed or opened `count` messages. */
  ghost predicate Counts(nonce: array<byte>, size: nat, count: nat)
    reads nonce
  {
    nonce.Length == 32 && size <= 32 && nonce[..size] == Nonce.At(count, size)
  }

  lemma AsBE16(n: nat)
    ensures [(n / 256) % 256, n % 256] == BE16(n)
  {
    var q, r := n / 0x1_0000, U16(n);
    assert n == 0x1_0000 * q + r;
    assert n / 256 == 256 * q + r / 256;
  }

  lemma NoPayload()
    ensures Payloads([]) == []
  {
  }

  class Writer {
    const aead: Aead
    const sink: Sink
    const nonce: array<byte>
    ghost const base: seq<byte>      // what was on the wire before the first record
    ghost var frames: seq<Frame>     // the records sealed so far
    ghost var seals: nat             // messages sealed so far; message i is sealed with nonce i

    /** The wire is `base` followed by the encoding of `frames`, for as long as no write has failed;
        the nonce array always stands at the number of messages sealed. */
    ghost predicate Valid()
      reads this, nonce, sink
    {
      && aead.Lawful()
      && Counts(nonce, aead.nonceSize, seals)
      && seals == SealCount(frames)
      && (!sink.failed ==> sink.sent == base + Encode(aead, 0, frames))
    }

    constructor (sink: Sink, aead: Aead)
      requires aead.Lawful()
      ensures Valid() && fresh(nonce)
      ensures this.sink == sink && this.aead == aead && base == sink.sent && frames == []
    {
      this.sink, this.aead := sink, aead;
      nonce := new byte[32](_ => 0);
      base, frames, seals := sink.sent, [], 0;
      new;
      ZeroNonce(aead.nonceSize);
      assert nonce[..aead.nonceSize] == seq(aead.nonceSize, _ => 0);
    }

    /** `Seal` followed by `increment`, the pair every message goes through. */
    method SealNext(plain: seq<byte>) returns (sealed: seq<byte>)
      requires aead.Lawful() && Counts(nonce, aead.nonceSize, seals)
      modifies this`seals, nonce
      ensures Counts(nonce, aead.nonceSize, seals)
      ensures seals == old(seals) + 1 && sealed == aead.Seal(old(seals), plain)
      ensures |sealed| == |plain| + aead.overhead
    {
      sealed := aead.sealFn(nonce[..aead.nonceSize], plain);
      Nonce.AtSuccessor(seals, aead.nonceSize);
      seals := seals + 1;
      Nonce.Increment(nonce, aead.nonceSize);
    }

    /** Seals one frame into `buf`: the length and, when there is data, the payload. */
    method SealFrame(buf: array<byte>, f: Frame) returns (size: nat)
      requires aead.Lawful() && Counts(nonce, aead.nonceSize, seals)
      requires buf != nonce && BUF_SIZE <= buf.Length && |Payload(f)| <= PAYLOAD_MAX
      modifies this`seals, nonce, buf
      ensures Counts(nonce, aead.nonceSize, seals)
      ensures seals == old(seals) + Seals(f)
      ensures size <= buf.Length && buf[..size] == EncodeFrame(aead, old(seals), f)
    {
      hide Counts, BE16, Nonce.At, SealCount, Aead.Lawful, Aead.Sized;
      RoomForRecord(aead);
      var nr, tag := |Payload(f)|, aead.overhead;
      var off := 2 + tag;
      buf[0], buf[1] := (nr / 256) % 256, nr % 256;
      AsBE16(nr);
      assert buf[..2] == BE16(nr);
      var head := SealNext(buf[..2]);
      Blit(buf, 0, head);
      assert buf[..off] == head;
      size := off;
      if f.Data? {
        var body := SealNext(f.payload);
        Blit(buf, off, body);
        size := off + nr + tag;
        JoinAt(buf[..], head, body);
      }
    }

    static lemma JoinAt(s: seq<byte>, a: seq<byte>, b: seq<byte>)
      requires |a| + |b| <= |s| && s[..|a|] == a && s[|a|..|a| + |b|] == b
      ensures s[..|a| + |b|] == a + b
    {
    }

    /** The one step by which the wire grows: a frame is sealed with the next nonces and written. When
        the write fails, what is on the wire is a prefix of what should have been. */
    method Emit(buf: array<byte>, f: Frame) returns (err: Option<IoError>)
      requires Valid() && buf != nonce && BUF_SIZE <= buf.Length && |Payload(f)| <= PAYLOAD_MAX
      modifies this`frames, this`seals, nonce, buf, sink
      ensures Valid() && frames == old(frames) + [f]
      ensures sink.failed == (old(sink.failed) || err.Some?)
      ensures !old(sink.failed) ==> sink.sent <= base + Encode(aead, 0, frames)
    {
      hide Encode, EncodeFrame, Counts, SealCount, Aead.Lawful, Aead.Sized;
      EncodeSnoc(aead, 0, frames, f);
      Assoc(base, Encode(aead, 0, frames), EncodeFrame(aead, seals, f));
      frames := frames + [f];
      var size := SealFrame(buf, f);
      var nw, e := sink.Write(buf[..size]);
      err := e;
    }

    lemma OnWire()
      requires Valid()
      ensures !sink.failed ==> sink.sent == base + Encode(aead, 0, frames)
    {
    }

    /** `Write`: when nothing fails, exactly the records of `p` are appended to the wire. */
    method Write(p: seq<byte>) returns (n: nat, err: Option<IoError>, ghost done: seq<Frame>)
      requires Valid()
      modifies this`frames, this`seals, nonce, sink
      ensures Valid() && sink.failed == (old(sink.failed) || err.Some?)
      ensures frames == old(frames) + done && done <= FramesOf(p)
      ensures !old(sink.failed) ==> sink.sent <= base + Encode(aead, 0, frames)
      ensures err.None? ==> n == |p| && done == FramesOf(p)
    {
      hide Valid, Encode, Payloads, RecordsFrom, FramesOf;
      OnWire();
      RecordsStart(p);
      var buf := new byte[BUF_CAP];
      n, err, done := 0, None, [];
      if |p| == 0 {
        done := [Empty];
        err := Emit(buf, Empty);
        return;
      }
      while n < |p| && err.None?
        invariant n <= |p| && Valid()
        invariant frames == old(frames) + done && done + RecordsFrom(p, n) == FramesOf(p)
        invariant !old(sink.failed) ==> sink.sent <= base + Encode(aead, 0, frames)
        invariant sink.failed == (old(sink.failed) || err.Some?)
        decreases |p| - n
      {
        var nr := PAYLOAD_MAX;
        if n + nr > |p| {
          nr := |p| - n;
        }
        ghost var f := Data(p[n..n + nr]);
        RecordsNext(p, n, done);
        err := Emit(buf, Data(p[n..n + nr]));
        done := done + [f];
        n := n + nr;
      }
    }

    /** `ReadFrom`: everything read from `r` goes out, one record per read. Every record but the last
        carries data; the last one is empty exactly when the final read returned no bytes: always, unless
        `r` is coupled and had something left. */
    method ReadFrom(r: Source) returns (n: nat, err: Option<IoError>, ghost full: seq<Frame>, ghost last: Frame)
      requires Valid() && !sink.failed
      modifies this`frames, this`seals, nonce, sink, r
      ensures Valid() && frames == old(frames) + full + [last]
      ensures CarryData(full) && last.Data? && |last.payload| <= PAYLOAD_MAX
      ensures n <= |old(r.input)| && Payloads(full) + last.payload == old(r.input)[..n]
      ensures sink.sent <= base + Encode(aead, 0, frames)
      ensures sink.failed ==> err.Some?
      ensures old(r.input) == [] ==> full == [] && last == Data([])
      ensures !sink.failed ==>
                && n == |old(r.input)| && r.input == []
                && err == (if r.fin == Eof then None else Some(r.fin))
                && (last == Data([]) <==> !r.coupled || old(r.input) == [])
    {
      hide Valid, Encode, Payloads;
      NoPayload();
      var buf := new byte[BUF_CAP];
      ghost var whole := r.input;
      n, err, full := 0, None, [];
      var ended := false;
      while true
        invariant Valid() && !sink.failed
        invariant CarryData(full) && frames == old(frames) + full
        invariant n <= |whole| && r.input == whole[n..] && Payloads(full) == whole[..n]
        invariant full == [] <==> n == 0
        invariant r.coupled && full != [] ==> r.input != []
        decreases |r.input|
      {
        ghost var m := n;
        ended, n, err, last := CopyRecord(r, buf, n, whole);
        assert whole[..n] == whole[..m] + whole[m..n];
        if ended {
          return;
        }
        CountAppend(full, [last]);
        EncodeOne(aead, 0, last);
        full := full + [last];
      }
    }

    /** One turn of `ReadFrom`: what one read returns goes out as one record. */
    method CopyRecord(r: Source, buf: array<byte>, n: nat, ghost whole: seq<byte>)
        returns (ended: bool, m: nat, err: Option<IoError>, ghost last: Frame)
      requires Valid() && !sink.failed && buf != nonce && buf.Length == BUF_CAP
      requires n <= |whole| && r.input == whole[n..]
      modifies this`frames, this`seals, nonce, sink, buf, r
      ensures Valid() && frames == old(frames) + [last]
      ensures n <= m <= |whole| && r.input == whole[m..] && last == Data(whole[n..m]) && m - n <= PAYLOAD_MAX
      ensures sink.sent <= base + Encode(aead, 0, frames)
      ensures sink.failed ==> ended && err.Some?
      ensures ended && !sink.failed ==>
                && m == |whole| && err == (if r.fin == Eof then None else Some(r.fin))
                && (n == m <==> !r.coupled || n == |whole|)
      ensures !ended ==> n < m && (r.coupled ==> r.input != [])
    {
      hide Encode, Nonce.At, SealCount, Counts;
      var off := 2 + aead.overhead;
      var nr, er := r.Read(buf, off, off + PAYLOAD_MAX);
      last := Data(buf[off..off + nr]);
      m := n + nr;
      var ew := Emit(buf, Data(buf[off..off + nr]));
      ended, err := ew.Some? || er.Some?, ew;
      if ew.None? && er.Some? && er != Some(Eof) {
        err := er;
      }
    }
  }

  /** `WriteTo` fails in the sink or in the stream. */
  datatype CopyError = SinkError(io: IoError) | SourceError(read: ReadError)

  /** What a copy makes of the error that ends it: a plain end of the connection is none. */
  function CopyEnd(e: ReadError): Option<CopyError> {
    if e == Io(Eof) then None else Some(SourceError(e))
  }

  class Reader {
    const aead: Aead
    const src: Source
    const nonce: array<byte>
    ghost var opens: nat     // messages opened so far
    var buf: array?<byte>    // the pooled buffer, nil when none is held
    var len: nat             // length of the slice r.buf; its capacity is the array's
    var off: nat             // where the bytes not handed out yet begin

    ghost function Repr(): set<object>
      reads this
    {
      {this, src, nonce} + if buf == null then {} else {buf}
    }

    ghost predicate Valid()
      reads this, nonce, buf
    {
      && aead.Lawful()
      && Counts(nonce, aead.nonceSize, opens)
      && (buf != null ==> buf != nonce && BUF_SIZE <= buf.Length && off <= len <= buf.Length)
    }

    /** Decrypted bytes not handed out yet. */
    ghost function Pending(): seq<byte>
      requires Valid()
      reads this, nonce, buf
    {
      if buf == null then [] else buf[off..len]
    }

    /** How much work the leftover buffer still holds up: even an empty one takes a `Read` to give back. */
    ghost function Held(): nat
      requires Valid()
      reads this, nonce, buf
    {
      if buf == null then 0 else 1 + (len - off)
    }

    /** What the unread stream will decrypt to. */
    ghost function Coming(): seq<byte>
      requires aead.Lawful()
      reads this, src
    {
      Plain(aead, opens, src.input, src.fin)
    }

    /** No tag on the unread stream will fail to verify. */
    ghost predicate Untampered()
      requires aead.Lawful()
      reads this, src
    {
      Clean(aead, opens, src.input, src.fin)
    }

    /** The first error it will meet. */
    ghost function Ending(): ReadError
      requires aead.Lawful()
      reads this, src
    {
      Stop(aead, opens, src.input, src.fin)
    }

    /** Everything this reader will still deliver. */
    ghost function Future(): seq<byte>
      requires Valid()
      reads this, nonce, buf, src
    {
      if buf == null then Coming() else Pending() + Coming()
    }

    constructor (src: Source, aead: Aead)
      requires aead.Lawful()
      ensures Valid() && fresh(Repr() - {src})
      ensures this.src == src && this.aead == aead && opens == 0 && buf == null
    {
      this.src, this.aead := src, aead;
      nonce := new byte[32](_ => 0);
      opens, buf, len, off := 0, null, 0, 0;
      new;
      ZeroNonce(aead.nonceSize);
      assert nonce[..aead.nonceSize] == seq(aead.nonceSize, _ => 0);
    }

    /** `Open` followed by `increment`, whether or not the tag verifies. */
    method OpenNext(sealed: seq<byte>) returns (plain: Option<seq<byte>>)
      requires aead.Lawful() && Counts(nonce, aead.nonceSize, opens)
      modifies this`opens, nonce
      ensures Counts(nonce, aead.nonceSize, opens)
      ensures opens == old(opens) + 1 && plain == aead.Open(old(opens), sealed)
    {
      plain := aead.openFn(nonce[..aead.nonceSize], sealed);
      Nonce.AtSuccessor(opens, aead.nonceSize);
      opens := opens + 1;
      Nonce.Increment(nonce, aead.nonceSize);
    }

    /** Reads and opens one message of `size` bytes, decrypting in place in `p`. */
    method ReadMessage(p: array<byte>, size: nat) returns (err: Option<ReadError>)
      requires aead.Lawful() && Counts(nonce, aead.nonceSize, opens)
      requires p != nonce && size + aead.overhead <= p.Length
      modifies src, p, nonce, this`opens
      ensures Counts(nonce, aead.nonceSize, opens)
      ensures var o := OpenMessage(aead, old(opens), old(src.input), size, src.fin);
              && src.input == o.rest && opens == o.count
              && o.outcome == (if err.None? then Record(p[..size]) else Fail(err.value))
    {
      var m := size + aead.overhead;
      var got, e := ReadFull(src, p, 0, m);
      if e.Some? {
        return Some(Io(e.value));
      }
      assert p[..m] == p[0..0 + m];
      var plain := OpenNext(p[..m]);
      if plain.None? {
        return Some(BadTag);
      }
      Blit(p, 0, plain.value);
      assert p[..size] == p[0..0 + size];
      return None;
    }

    /** `read`: opens one record into `p`. */
    method ReadRecord(p: array<byte>) returns (n: nat, err: Option<ReadError>)
      requires aead.Lawful() && Counts(nonce, aead.nonceSize, opens)
      requires p != nonce && PAYLOAD_MAX + aead.overhead <= p.Length
      modifies src, p, nonce, this`opens
      ensures Counts(nonce, aead.nonceSize, opens)
      ensures var o := OpenRecord(aead, old(opens), old(src.input), src.fin);
              && src.input == o.rest && opens == o.count
              && n <= p.Length
              && o.outcome == (if err.None? then Record(p[..n]) else Fail(err.value))
      ensures err.Some? ==> n == 0
      ensures err.None? ==> p[..n] + Coming() == old(Coming())
      ensures err.Some? && err != Some(BadTag) ==> Coming() == old(Coming())
      ensures err.Some? && err.value.Io? ==> Coming() == []
      ensures err.None? || !err.value.Io? ==> |src.input| < |old(src.input)|
      ensures old(Untampered()) ==> Untampered() && err != Some(BadTag)
      ensures if err.None? then Ending() == old(Ending()) else err.value == old(Ending())
    {
      OpenConserves(aead, opens, src.input, src.fin);
      n := 0;
      err := ReadMessage(p, 2);
      if err.Some? {
        return;
      }
      var size := SizeField(p[..2]);
      if size == 0 {
        err := Some(ZeroChunk);
        return;
      }
      err := ReadMessage(p, size);
      if err.None? {
        n := size;
      }
    }

    /** `Read`: straight into `p` when it is large enough for any record, otherwise by way of the
        leftover buffer. What is delivered, followed by what is still to come, never changes; an I/O
        error means nothing is left. */
    method Read(p: array<byte>) returns (n: nat, err: Option<ReadError>)
      requires Valid() && p !in Repr()
      modifies Repr(), p
      ensures Valid() && fresh(Repr() - old(Repr()))
      ensures n <= p.Length && (err.Some? ==> n == 0)
      ensures err.None? ==> p[..n] + Future() == old(Future())
      ensures err.Some? && err != Some(BadTag) ==> Future() == old(Future())
      ensures err.Some? && err.value.Io? ==> Future() == []
      ensures old(Untampered()) ==> Untampered() && err != Some(BadTag)
      ensures old(buf) != null ==> err.None? && n == Min(p.Length, |old(Pending())|)
      ensures old(buf) == null && err.None? ==>
                n == Min(p.Length, |Got(OpenRecord(aead, old(opens), old(src.input), src.fin).outcome)|)
      ensures old(buf) == null ==>
                var o := OpenRecord(aead, old(opens), old(src.input), src.fin);
                && opens == o.count && src.input == o.rest
                && (if err.Some? then o.outcome == Fail(err.value) else o.outcome.Record?)
      ensures old(buf) != null ==> opens == old(opens)
      ensures old(buf) == null && (err.None? || !err.value.Io?) ==> |src.input| < |old(src.input)|
      ensures old(buf) != null && p.Length > 0 ==> src.input == old(src.input) && Held() < old(Held())
    {
      hide Plain, Clean, OpenRecord, Counts;
      if buf == null {
        if p.Length >= PAYLOAD_MAX + aead.overhead {
          n, err := ReadRecord(p);
          return;
        }
        var b := new byte[BUF_CAP];
        n, err := ReadRecord(b);
        if err.Some? {
          return 0, err;
        }
        buf, len, off := b, n, 0;
        assert b[0..n] == b[..n];
      }
      n := Take(p);
      err := None;
    }

    /** Hands out leftover bytes and gives the buffer back once it is used up. */
    method Take(p: array<byte>) returns (n: nat)
      requires Valid() && buf != null && p !in Repr()
      modifies this`off, this`buf, p
      ensures Valid() && Repr() <= old(Repr())
      ensures n == Min(p.Length, |old(Pending())|)
      ensures p[..n] + Future() == old(Future())
      ensures p.Length > 0 ==> Held() < old(Held())
    {
      hide Plain, Counts;
      ghost var held, coming := buf[..], Coming();
      n := Min(p.Length, len - off);
      SplitOff(held, off, off + n, len, coming);
      ghost var part := held[off..off + n];
      Blit(p, 0, buf[off..off + n]);
      assert buf[..] == held && p[..n] == p[0..0 + n] == part;
      off := off + n;
      if off == len {
        buf := null;
      } else {
        assert Pending() == held[off..len];
      }
    }

    static lemma SplitOff(held: seq<byte>, a: nat, b: nat, c: nat, coming: seq<byte>)
      requires a <= b <= c <= |held|
      ensures held[a..b] + (held[b..c] + coming) == held[a..c] + coming
      ensures b == c ==> held[a..b] + coming == held[a..c] + coming
    {
      assert held[a..c] == held[a..b] + held[b..c];
      Assoc(held[a..b], held[b..c], coming);
    }

    static lemma Slices(held: seq<byte>, from: nat, off: nat, len: nat, n: nat)
      requires from <= off && off + n <= len <= |held|
      ensures held[off..len][..n] == held[off..off + n]
      ensures held[from..off] + held[off..off + n] == held[from..off + n]
    {
    }

    /** Pushes the leftover into `w`, which may take any part of what it is offered. */
    method Drain(w: Sink) returns (err: Option<IoError>, ghost out: seq<byte>)
      requires Valid() && buf != null
      modifies w, this`off, this`buf
      ensures Valid() && Repr() <= old(Repr())
      ensures w.sent == old(w.sent) + out && out + Future() == old(Future())
      ensures err.None? ==> out + Coming() == old(Future()) && buf == old(buf) && off == len
      ensures w.failed == (old(w.failed) || err.Some?)
      ensures Ending() == old(Ending())
    {
      hide Plain, Counts, Stop, Aead.Lawful, Aead.Sized;
      ghost var held, from := buf[..], off;
      assert held[off..off] == [] && w.sent + [] == w.sent;
      err := None;
      while off < len && err.None?
        invariant from <= off <= len
        invariant w.sent == old(w.sent) + held[from..off]
        invariant w.failed == (old(w.failed) || err.Some?)
        decreases len - off, err.None?
        modifies w, this`off
      {
        var nw, ew := w.WriteSome(buf[off..len]);
        assert buf[off..len] == held[off..len];
        Slices(held, from, off, len, nw);
        Assoc(old(w.sent), held[from..off], held[off..off + nw]);
        off := off + nw;
        err := ew;
      }
      out := held[from..off];
      SplitOff(held, from, off, len, Coming());
      if err.Some? && off == len {
        buf := null;
      }
    }

    /** One turn of `WriteTo`: push what is held, then open the next record in its place. */
    method Pump(w: Sink) returns (n: nat, err: Option<CopyError>, ghost out: seq<byte>)
      requires Valid() && buf != null
      modifies w, src, nonce, buf, this`opens, this`buf, this`len, this`off
      ensures Valid() && (buf == old(buf) || (buf == null && err.Some?))
      ensures w.sent == old(w.sent) + out && n == |out|
      ensures err != Some(SourceError(BadTag)) ==> out + Future() == old(Future())
      ensures err.Some? && err.value.SourceError? && err.value.read.Io? ==> Future() == []
      ensures old(Untampered()) ==> Untampered() && err != Some(SourceError(BadTag))
      ensures err.None? || err == Some(SourceError(ZeroChunk)) ==> |src.input| < |old(src.input)|
      ensures |src.input| <= |old(src.input)|
      ensures w.failed == (old(w.failed) || (err.Some? && err.value.SinkError?))
      ensures err.None? ==> Ending() == old(Ending())
      ensures err.Some? && err.value.SourceError? ==> err.value.read == old(Ending())
    {
      hide Plain, Clean, OpenRecord, Stop, Counts, Aead.Lawful, Aead.Sized;
      var held := |w.sent|;
      var ew;
      ew, out := Drain(w);
      n := |w.sent| - held;
      if ew.Some? {
        return n, Some(SinkError(ew.value)), out;
      }
      RoomForRecord(aead);
      var nr, er := ReadRecord(buf);
      if er.Some? {
        return n, Some(SourceError(er.value)), out;
      }
      len, off, err := nr, 0, None;
      assert buf[0..nr] == buf[..nr];
    }

    /** `WriteTo`: the same stream pushed into `w`. The end of the stream is not an error; when it is
        reached nothing is left behind. */
    method WriteTo(w: Sink) returns (n: nat, err: Option<CopyError>, ghost out: seq<byte>)
      requires Valid()
      modifies Repr(), w
      ensures Valid() && fresh(Repr() - old(Repr()))
      ensures w.sent == old(w.sent) + out && n == |out|
      ensures err != Some(SourceError(BadTag)) ==> out + Future() == old(Future())
      ensures err.None? || (err.value.SourceError? && err.value.read.Io?) ==> Future() == []
      ensures old(Untampered()) ==> Untampered() && err != Some(SourceError(BadTag))
      ensures w.failed == (old(w.failed) || (err.Some? && err.value.SinkError?))
      ensures err == Some(SourceError(ZeroChunk)) ==> |src.input| < |old(src.input)|
      ensures err.None? || err.value.SourceError? ==> err == CopyEnd(old(Ending()))
    {
      hide Plain, Clean, Counts, Stop, Aead.Lawful, Aead.Sized;
      if buf == null {
        buf, len := new byte[BUF_CAP], BUF_SIZE;
        off := len;
      }
      n, err, out := 0, None, [];
      while err.None?
        invariant Valid() && fresh(Repr() - old(Repr())) && (err.None? ==> buf != null)
        invariant w.sent == old(w.sent) + out && n == |out|
        invariant err != Some(SourceError(BadTag)) ==> out + Future() == old(Future())
        invariant err.Some? && err.value.SourceError? && err.value.read.Io? ==> Future() == []
        invariant old(Untampered()) ==> Untampered() && err != Some(SourceError(BadTag))
        invariant w.failed == (old(w.failed) || (err.Some? && err.value.SinkError?))
        invariant |src.input| <= |old(src.input)|
        invariant err == Some(SourceError(ZeroChunk)) ==> |src.input| < |old(src.input)|
        invariant err.None? ==> Ending() == old(Ending())
        invariant err.Some? && err.value.SourceError? ==> err.value.read == old(Ending())
        decreases if err.None? then |src.input| + 1 else 0
      {
        var nn, e, more := Pump(w);
        Assoc(out, more, Future());
        Assoc(old(w.sent), out, more);
        n, err, out := n + nn, e, out + more;
      }
      if err == Some(SourceError(Io(Eof))) {
        err := None;
      }
    }
  }
}

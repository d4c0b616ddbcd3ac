/** The wire format of the AEAD stream, as sequences: how records are sealed, how they are opened,
    and why the second undoes the first for every cut of the wire. */
module AeadFraming {
  import opened Bytes
  import opened Transport
  import Nonce

  const PAYLOAD_MAX := 0x3FFF
  const BUF_SIZE := 17 * 1024

  /** An authenticated cipher, as section 2 of RFC 5116 describes it: two functions and two sizes. */
  datatype Aead = Aead(
    nonceSize: nat,
    overhead: nat,
    sealFn: (seq<byte>, seq<byte>) -> seq<byte>,
    openFn: (seq<byte>, seq<byte>) -> Option<seq<byte>>)
  {
    function Seal(k: nat, plain: seq<byte>): seq<byte> {
      sealFn(Nonce.At(k, nonceSize), plain)
    }

    function Open(k: nat, sealed: seq<byte>): Option<seq<byte>> {
      openFn(Nonce.At(k, nonceSize), sealed)
    }

    ghost predicate Sized() {
      forall n, c :: openFn(n, c).Some? ==> |openFn(n, c).value| + overhead == |c|
    }

    /** All that is assumed of a cipher: opening inverts sealing, sizes differ by the tag, the nonce
        fits the counter array and one record fits the pooled buffer. */
    ghost predicate Lawful() {
      && nonceSize <= 32
      && 2 + overhead + PAYLOAD_MAX + overhead <= BUF_SIZE
      && (forall n, p :: |sealFn(n, p)| == |p| + overhead)
      && (forall n, p :: openFn(n, sealFn(n, p)) == Some(p))
      && Sized()
    }
  }

  lemma RoomForRecord(a: Aead)
    requires a.Lawful()
    ensures 2 + a.overhead + PAYLOAD_MAX + a.overhead <= BUF_SIZE
  {
  }

  const TAG_SIZE := 16

  /** A tag made of the nonce and the first bytes of the plaintext. */
  function Tag(nonce: seq<byte>, p: seq<byte>): (t: seq<byte>)
    ensures |t| == TAG_SIZE
  {
    seq(TAG_SIZE, i requires 0 <= i => if i < |nonce| then nonce[i] else if i < |p| then p[i] else 0)
  }

  function SealWith(nonce: seq<byte>, p: seq<byte>): seq<byte> {
    RotatedAll(p, 1) + Tag(nonce, p)
  }

  function OpenWith(nonce: seq<byte>, sealed: seq<byte>): Option<seq<byte>> {
    if |sealed| < TAG_SIZE then None
    else
      var p := RotatedAll(sealed[..|sealed| - TAG_SIZE], 255);
      if sealed[|sealed| - TAG_SIZE..] == Tag(nonce, p) then Some(p) else None
  }

  /** The laws can be met, with a tag of 16 bytes that depends on the nonce and a ciphertext that is not the
      plaintext. */
  lemma LawsAreConsistent()
    ensures Aead(12, TAG_SIZE, SealWith, OpenWith).Lawful()
  {
    forall n, p
      ensures OpenWith(n, SealWith(n, p)) == Some(p)
    {
      assert RotatedAll(RotatedAll(p, 1), 255) == p;
      assert SealWith(n, p)[..|p|] == RotatedAll(p, 1) && SealWith(n, p)[|p|..] == Tag(n, p);
    }
  }

  /** What the writer puts on the wire: a length seal followed by a payload seal, or, for an empty
      `Write`, a lone zero length. `Data([])` is what `ReadFrom` seals after a read of no bytes. */
  datatype Frame = Data(payload: seq<byte>) | Empty

  ghost predicate Fits(fs: seq<Frame>) {
    forall i :: 0 <= i < |fs| && fs[i].Data? ==> |fs[i].payload| <= PAYLOAD_MAX
  }

  /** No frame is a zero-length data frame. */
  ghost predicate Aligned(fs: seq<Frame>) {
    forall i :: 0 <= i < |fs| ==> fs[i] != Data([])
  }

  /** Data frames that all hold something. */
  ghost predicate CarryData(fs: seq<Frame>) {
    forall i :: 0 <= i < |fs| ==> fs[i].Data? && 0 < |fs[i].payload| <= PAYLOAD_MAX
  }

  function Payload(f: Frame): seq<byte> {
    if f.Data? then f.payload else []
  }

  function Payloads(fs: seq<Frame>): seq<byte> {
    if fs == [] then [] else Payload(fs[0]) + Payloads(fs[1..])
  }

  function Seals(f: Frame): nat {
    if f.Data? then 2 else 1
  }

  function SealCount(fs: seq<Frame>): nat {
    if fs == [] then 0 else Seals(fs[0]) + SealCount(fs[1..])
  }

  function EncodeFrame(a: Aead, k: nat, f: Frame): seq<byte> {
    match f
    case Data(p) => a.Seal(k, BE16(|p|)) + a.Seal(k + 1, p)
    case Empty => a.Seal(k, [0, 0])
  }

  /** The wire of a list of frames when `k` messages have been sealed before. */
  function Encode(a: Aead, k: nat, fs: seq<Frame>): seq<byte>
    decreases |fs|
  {
    if fs == [] then [] else EncodeFrame(a, k, fs[0]) + Encode(a, k + Seals(fs[0]), fs[1..])
  }

  lemma {:induction false} CountAppend(fs: seq<Frame>, gs: seq<Frame>)
    ensures SealCount(fs + gs) == SealCount(fs) + SealCount(gs)
    ensures Payloads(fs + gs) == Payloads(fs) + Payloads(gs)
  {
    if fs == [] {
      assert fs + gs == gs;
    } else {
      assert (fs + gs)[1..] == fs[1..] + gs;
      CountAppend(fs[1..], gs);
    }
  }

  lemma EncodeFirst(a: Aead, k: nat, fs: seq<Frame>)
    requires fs != []
    ensures Encode(a, k, fs) == EncodeFrame(a, k, fs[0]) + Encode(a, k + Seals(fs[0]), fs[1..])
    ensures SealCount(fs) == Seals(fs[0]) + SealCount(fs[1..])
  {
  }

  lemma {:induction false} EncodeAppend(a: Aead, k: nat, fs: seq<Frame>, gs: seq<Frame>)
    ensures Encode(a, k, fs + gs) == Encode(a, k, fs) + Encode(a, k + SealCount(fs), gs)
    decreases |fs|
  {
    hide EncodeFrame, Seals;
    if fs == [] {
      assert fs + gs == gs;
    } else {
      var k' := k + Seals(fs[0]);
      var x, y, z := EncodeFrame(a, k, fs[0]), Encode(a, k', fs[1..]), Encode(a, k' + SealCount(fs[1..]), gs);
      EncodeFirst(a, k, fs);
      EncodeFirst(a, k, fs + gs);
      assert (fs + gs)[1..] == fs[1..] + gs;
      hide Encode, SealCount;
      calc {
        Encode(a, k, fs + gs);
        x + Encode(a, k', fs[1..] + gs);
        { EncodeAppend(a, k', fs[1..], gs); }
        x + (y + z);
        { Assoc(x, y, z); }
        (x + y) + z;
      }
    }
  }

  lemma EncodeOne(a: Aead, k: nat, f: Frame)
    ensures Encode(a, k, [f]) == EncodeFrame(a, k, f)
    ensures SealCount([f]) == Seals(f)
    ensures Payloads([f]) == Payload(f)
  {
    assert [f][1..] == [];
    assert Encode(a, k + Seals(f), []) == [] && Payloads([]) == [];
  }

  lemma EncodeSnoc(a: Aead, k: nat, fs: seq<Frame>, f: Frame)
    ensures Encode(a, k, fs + [f]) == Encode(a, k, fs) + EncodeFrame(a, k + SealCount(fs), f)
    ensures SealCount(fs + [f]) == SealCount(fs) + Seals(f)
    ensures Payloads(fs + [f]) == Payloads(fs) + Payload(f)
  {
    hide *;
    EncodeAppend(a, k, fs, [f]);
    CountAppend(fs, [f]);
    EncodeOne(a, k + SealCount(fs), f);
  }

  /** The records `Write` cuts `p[n:]` into. */
  function RecordsFrom(p: seq<byte>, n: nat): seq<Frame>
    requires n <= |p|
    decreases |p| - n
  {
    if n == |p| then []
    else
      var end := Min(n + PAYLOAD_MAX, |p|);
      [Data(p[n..end])] + RecordsFrom(p, end)
  }

  lemma RecordsNext(p: seq<byte>, n: nat, done: seq<Frame>)
    requires n < |p|
    ensures var end := Min(n + PAYLOAD_MAX, |p|);
            (done + [Data(p[n..end])]) + RecordsFrom(p, end) == done + RecordsFrom(p, n)
  {
    var end := Min(n + PAYLOAD_MAX, |p|);
    assert (done + [Data(p[n..end])]) + RecordsFrom(p, end) == done + ([Data(p[n..end])] + RecordsFrom(p, end));
  }

  lemma RecordsStart(p: seq<byte>)
    ensures RecordsFrom(p, |p|) == []
    ensures p != [] ==> FramesOf(p) == RecordsFrom(p, 0)
    ensures p == [] ==> FramesOf(p) == [Empty]
  {
  }

  function FramesOf(p: seq<byte>): seq<Frame> {
    if p == [] then [Empty] else RecordsFrom(p, 0)
  }

  /** Cutting into records loses nothing, keeps every record within the limit and never makes an
      empty one. */
  lemma {:induction false} RecordsSound(p: seq<byte>, n: nat)
    requires n <= |p|
    ensures Payloads(RecordsFrom(p, n)) == p[n..] && CarryData(RecordsFrom(p, n))
    decreases |p| - n
  {
    if n < |p| {
      var end := Min(n + PAYLOAD_MAX, |p|);
      RecordsSound(p, end);
      assert p[n..] == p[n..end] + p[end..];
    }
  }

  lemma FramesOfSound(p: seq<byte>)
    ensures Payloads(FramesOf(p)) == p && Fits(FramesOf(p)) && Aligned(FramesOf(p))
  {
    if p != [] {
      RecordsSound(p, 0);
    } else {
      assert FramesOf(p)[1..] == [] && Payloads([]) == [];
    }
  }

  /** ceil(length / 16383) */
  function RecordCount(length: nat): nat {
    (length + 16382) / 16383
  }

  lemma OneRecordMore(length: nat, left: nat, cost: nat)
    requires length > 0 && left == if length <= 16383 then 0 else length - 16383
    ensures RecordCount(length) * cost == RecordCount(left) * cost + cost
  {
    assert RecordCount(length) == RecordCount(left) + 1;
  }

  lemma {:induction false} RecordsLength(a: Aead, k: nat, p: seq<byte>, n: nat)
    requires a.Lawful() && n <= |p|
    ensures |Encode(a, k, RecordsFrom(p, n))| == |p| - n + RecordCount(|p| - n) * (2 + 2 * a.overhead)
    decreases |p| - n
  {
    if n < |p| {
      var end := Min(n + PAYLOAD_MAX, |p|);
      RecordsLength(a, k + 2, p, end);
      OneRecordMore(|p| - n, |p| - end, 2 + 2 * a.overhead);
      hide RecordCount;
    }
  }

  function Cost(a: Aead, length: nat): nat {
    if length == 0 then 2 + a.overhead else length + RecordCount(length) * (2 + 2 * a.overhead)
  }

  /** A `Write` of L > 0 bytes costs L + ceil(L/16383) * (2 + 2 * tag) bytes of wire; an empty one costs
      a lone sealed length. */
  lemma WireLength(a: Aead, k: nat, p: seq<byte>)
    requires a.Lawful()
    ensures |Encode(a, k, FramesOf(p))| == Cost(a, |p|)
  {
    if p == [] {
      EncodeOne(a, k, Empty);
    } else {
      RecordsLength(a, k, p, 0);
    }
  }

  /** The records of several writes, one after the other. */
  function FramesOfAll(writes: seq<seq<byte>>): seq<Frame> {
    if writes == [] then [] else FramesOfAll(writes[..|writes| - 1]) + FramesOf(writes[|writes| - 1])
  }

  function TotalCost(a: Aead, writes: seq<seq<byte>>): nat {
    if writes == [] then 0 else TotalCost(a, writes[..|writes| - 1]) + Cost(a, |writes[|writes| - 1]|)
  }

  lemma {:induction false} TotalLength(a: Aead, writes: seq<seq<byte>>)
    requires a.Lawful()
    ensures |Encode(a, 0, FramesOfAll(writes))| == TotalCost(a, writes)
  {
    hide FramesOf, Cost, EncodeFrame;
    if writes != [] {
      var init, last := FramesOfAll(writes[..|writes| - 1]), writes[|writes| - 1];
      TotalLength(a, writes[..|writes| - 1]);
      EncodeAppend(a, 0, init, FramesOf(last));
      WireLength(a, SealCount(init), last);
    }
  }

  // Reading side.

  datatype ReadError = Io(error: IoError) | BadTag | ZeroChunk

  datatype Outcome = Record(payload: seq<byte>) | Fail(error: ReadError)

  /** The result of opening one record: what came out, what is left of the stream, how many messages
      have been opened. */
  datatype Opened = Opened(outcome: Outcome, rest: seq<byte>, count: nat)

  function SizeField(head: seq<byte>): (n: nat)
    requires |head| == 2
    ensures n <= PAYLOAD_MAX
  {
    FromBE16(head) % (PAYLOAD_MAX + 1)
  }

  function Got(o: Outcome): seq<byte> {
    if o.Record? then o.payload else []
  }

  /** Opening the next message of the stream, which is to hold `size` bytes. */
  function OpenMessage(a: Aead, k: nat, input: seq<byte>, size: nat, fin: IoError): (o: Opened)
    requires a.Sized()
    ensures o.outcome.Record? ==> |o.outcome.payload| == size && |o.rest| + size + a.overhead == |input|
    ensures o.outcome.Fail? ==> (o.outcome.error.Io? && o.rest == []) || o.outcome.error == BadTag
    ensures |o.rest| < |input| || (o.rest == [] && o.outcome.Fail? && o.outcome.error.Io?) || size + a.overhead == 0
  {
    var m := size + a.overhead;
    if |input| < m then Opened(Fail(Io(FullError(m, |input|, fin).value)), [], k)
    else
      match a.Open(k, input[..m])
      case None => Opened(Fail(BadTag), input[m..], k + 1)
      case Some(p) => Opened(Record(p), input[m..], k + 1)
  }

  /** `Reader.read` as a function of the stream: a length of two bytes, then that many bytes. */
  function OpenRecord(a: Aead, k: nat, input: seq<byte>, fin: IoError): (o: Opened)
    requires a.Sized()
    ensures |o.rest| < |input| || (o.rest == [] && o.outcome.Fail? && o.outcome.error.Io?)
  {
    var h := OpenMessage(a, k, input, 2, fin);
    if h.outcome.Fail? then h
    else
      var size := SizeField(h.outcome.payload);
      if size == 0 then Opened(Fail(ZeroChunk), h.rest, h.count)
      else OpenMessage(a, h.count, h.rest, size, fin)
  }

  /** Everything a reader at this point of a stream will ever hand out. */
  function Plain(a: Aead, k: nat, input: seq<byte>, fin: IoError): seq<byte>
    requires a.Sized()
    decreases |input|
  {
    var o := OpenRecord(a, k, input, fin);
    match o.outcome
    case Record(p) => p + Plain(a, o.count, o.rest, fin)
    case Fail(e) => if e == ZeroChunk then Plain(a, o.count, o.rest, fin) else []
  }

  /** The first error a reader at this point of a stream meets. */
  function Stop(a: Aead, k: nat, input: seq<byte>, fin: IoError): ReadError
    requires a.Sized()
    decreases |input|
  {
    var o := OpenRecord(a, k, input, fin);
    match o.outcome
    case Record(_) => Stop(a, o.count, o.rest, fin)
    case Fail(e) => e
  }

  /** No tag on the rest of the stream will fail to verify. */
  predicate Clean(a: Aead, k: nat, input: seq<byte>, fin: IoError)
    requires a.Sized()
    decreases |input|
  {
    var o := OpenRecord(a, k, input, fin);
    match o.outcome
    case Record(_) => Clean(a, o.count, o.rest, fin)
    case Fail(e) => e.Io? || (e == ZeroChunk && Clean(a, o.count, o.rest, fin))
  }

  /** Opening one record moves its payload, and nothing else, from what is to come to what is here. */
  lemma OpenConserves(a: Aead, k: nat, input: seq<byte>, fin: IoError)
    requires a.Sized()
    ensures var o := OpenRecord(a, k, input, fin);
            && (o.outcome != Fail(BadTag) ==>
                  Got(o.outcome) + Plain(a, o.count, o.rest, fin) == Plain(a, k, input, fin))
            && (o.outcome.Fail? && o.outcome.error.Io? ==> Plain(a, o.count, o.rest, fin) == [])
            && (Clean(a, k, input, fin) ==>
                  o.outcome != Fail(BadTag) && Clean(a, o.count, o.rest, fin))
  {
  }

  lemma LengthFieldRoundTrip(n: nat)
    requires n <= PAYLOAD_MAX
    ensures SizeField(BE16(n)) == n && SizeField([0, 0]) == 0
  {
    BE16RoundTrip(n);
  }

  /** Opening the record the writer sealed with the same counter gives the payload back, stops at the
      record boundary, and leaves the reader's counter where the writer's is: unless the frame is a
      zero-length data frame, of which the reader opens only the first of two seals. */
  lemma OpenEncoded(a: Aead, k: nat, f: Frame, tail: seq<byte>, fin: IoError)
    requires a.Lawful() && Fits([f])
    ensures f != Data([]) ==>
              OpenRecord(a, k, EncodeFrame(a, k, f) + tail, fin)
              == Opened(if f.Data? then Record(f.payload) else Fail(ZeroChunk), tail, k + Seals(f))
    ensures f == Data([]) ==>
              OpenRecord(a, k, EncodeFrame(a, k, f) + tail, fin)
              == Opened(Fail(ZeroChunk), a.Seal(k + 1, []) + tail, k + 1)
  {
    hide Nonce.At, BE16, FromBE16, FullError, U16;
    var wire := EncodeFrame(a, k, f) + tail;
    var h := 2 + a.overhead;
    assert [f][0] == f;
    LengthFieldRoundTrip(|Payload(f)|);
    match f
    case Empty =>
      assert wire[..h] == a.Seal(k, [0, 0]) && wire[h..] == tail;
    case Data(p) =>
      assert wire[..h] == a.Seal(k, BE16(|p|)) && wire[h..] == a.Seal(k + 1, p) + tail;
      if p != [] {
        assert wire[h..][..|p| + a.overhead] == a.Seal(k + 1, p);
        assert wire[h..][|p| + a.overhead..] == tail;
      }
  }

  /** A stream that ends inside a record ends the reader with an I/O error, never with bad data. */
  lemma OpenTruncated(a: Aead, k: nat, f: Frame, cut: nat, fin: IoError)
    requires a.Lawful() && Fits([f]) && f != Data([])
    requires cut < |EncodeFrame(a, k, f)|
    ensures var o := OpenRecord(a, k, EncodeFrame(a, k, f)[..cut], fin);
            o.outcome.Fail? && o.outcome.error.Io? && o.rest == []
  {
    assert [f][0] == f;
    LengthFieldRoundTrip(|Payload(f)|);
    var h := 2 + a.overhead;
    if f.Data? && h <= cut {
      assert EncodeFrame(a, k, f)[..cut][..h] == a.Seal(k, BE16(|f.payload|));
    }
  }

  /** Records that hold data are passed over. */
  lemma {:induction false} StopOfFrames(a: Aead, k: nat, fs: seq<Frame>, tail: seq<byte>, fin: IoError)
    requires a.Lawful() && CarryData(fs)
    ensures Stop(a, k, Encode(a, k, fs) + tail, fin) == Stop(a, k + SealCount(fs), tail, fin)
    decreases |fs|
  {
    hide EncodeFrame, OpenRecord;
    if fs == [] {
      assert Encode(a, k, fs) + tail == tail;
    } else {
      var f, rest, k' := fs[0], fs[1..], k + Seals(fs[0]);
      assert [f][0] == f;
      Assoc(EncodeFrame(a, k, f), Encode(a, k', rest), tail);
      OpenEncoded(a, k, f, Encode(a, k', rest) + tail, fin);
      StopOfFrames(a, k', rest, tail, fin);
    }
  }

  /** So a whole stream ends as the connection does. */
  lemma StopAtEnd(a: Aead, k: nat, fs: seq<Frame>, fin: IoError)
    requires a.Lawful() && CarryData(fs)
    ensures Stop(a, k, Encode(a, k, fs), fin) == Io(fin)
  {
    StopOfFrames(a, k, fs, [], fin);
    assert Encode(a, k, fs) + [] == Encode(a, k, fs);
  }

  /** Where a stream is cut inside a record, the error is the connection's own exactly at the start of one of the two
      sealed messages, behind the length included; anywhere else a plain end has become an unexpected one. */
  lemma StopTruncated(a: Aead, k: nat, f: Frame, cut: nat, fin: IoError)
    requires a.Lawful() && CarryData([f]) && cut < |EncodeFrame(a, k, f)|
    ensures Stop(a, k, EncodeFrame(a, k, f)[..cut], fin)
            == Io(if fin == Eof && cut != 0 && cut != 2 + a.overhead then UnexpectedEof else fin)
  {
    hide Nonce.At, BE16, FromBE16;
    assert [f][0] == f;
    LengthFieldRoundTrip(|Payload(f)|);
    var h := 2 + a.overhead;
    if h <= cut {
      assert EncodeFrame(a, k, f)[..cut][..h] == a.Seal(k, BE16(|f.payload|));
    }
  }

  lemma PlainOfFrame(a: Aead, k: nat, f: Frame, tail: seq<byte>, fin: IoError)
    requires a.Lawful() && Fits([f]) && f != Data([])
    ensures Plain(a, k, EncodeFrame(a, k, f) + tail, fin) == Payload(f) + Plain(a, k + Seals(f), tail, fin)
    ensures Clean(a, k, EncodeFrame(a, k, f) + tail, fin) == Clean(a, k + Seals(f), tail, fin)
  {
    OpenEncoded(a, k, f, tail, fin);
  }

  lemma PlainOfTruncated(a: Aead, k: nat, f: Frame, cut: nat, fin: IoError)
    requires a.Lawful() && Fits([f]) && f != Data([])
    requires cut < |EncodeFrame(a, k, f)|
    ensures Plain(a, k, EncodeFrame(a, k, f)[..cut], fin) == []
    ensures Clean(a, k, EncodeFrame(a, k, f)[..cut], fin)
  {
    OpenTruncated(a, k, f, cut, fin);
  }

  lemma PlainOfNothing(a: Aead, k: nat, fin: IoError)
    requires a.Lawful()
    ensures Clean(a, k, [], fin) && Plain(a, k, [], fin) == []
  {
  }

  /** The heart of the round trip: whatever prefix of the wire arrives, every tag on it verifies and
      what can be read from it is a prefix of what was written; the whole wire gives everything. */
  lemma {:induction false} PlainOfWire(a: Aead, k: nat, fs: seq<Frame>, input: seq<byte>, fin: IoError)
    requires a.Lawful() && Fits(fs) && Aligned(fs)
    requires input <= Encode(a, k, fs)
    ensures Clean(a, k, input, fin)
    ensures Plain(a, k, input, fin) <= Payloads(fs)
    ensures input == Encode(a, k, fs) ==> Plain(a, k, input, fin) == Payloads(fs)
    decreases |fs|
  {
    hide EncodeFrame, Seals, Payload, Plain, Clean, OpenRecord, Nonce.At, BE16, FromBE16;
    if fs == [] {
      PlainOfNothing(a, k, fin);
    } else {
      var f, k' := fs[0], k + Seals(fs[0]);
      var first := EncodeFrame(a, k, f);
      assert Fits([f]) by {
        assert [f][0] == f;
      }
      if |input| < |first| {
        PlainOfTruncated(a, k, f, |input|, fin);
        assert input == first[..|input|];
      } else {
        var tail := input[|first|..];
        assert input == first + tail;
        PlainOfWire(a, k', fs[1..], tail, fin);
        PlainOfFrame(a, k, f, tail, fin);
        PrefixCons(Payload(f), Plain(a, k', tail, fin), Payloads(fs[1..]));
      }
    }
  }

  /** Whatever comes behind frames that hold no zero-length data, those are delivered first and in full. */
  lemma {:induction false} PlainOfFrames(a: Aead, k: nat, fs: seq<Frame>, tail: seq<byte>, fin: IoError)
    requires a.Lawful() && Fits(fs) && Aligned(fs)
    ensures Plain(a, k, Encode(a, k, fs) + tail, fin)
            == Payloads(fs) + Plain(a, k + SealCount(fs), tail, fin)
    ensures Clean(a, k, Encode(a, k, fs) + tail, fin) == Clean(a, k + SealCount(fs), tail, fin)
    decreases |fs|
  {
    hide EncodeFrame, Payload, Plain, Clean, Seals;
    if fs == [] {
      assert Encode(a, k, fs) + tail == tail;
      assert Payloads(fs) + Plain(a, k, tail, fin) == Plain(a, k, tail, fin);
    } else {
      var f, rest, k' := fs[0], fs[1..], k + Seals(fs[0]);
      assert [f][0] == f;
      Assoc(EncodeFrame(a, k, f), Encode(a, k', rest), tail);
      PlainOfFrame(a, k, f, Encode(a, k', rest) + tail, fin);
      PlainOfFrames(a, k', rest, tail, fin);
      Assoc(Payload(f), Payloads(rest), Plain(a, k' + SealCount(rest), tail, fin));
    }
  }

  /** A zero-length data frame ends a stream without harm: wherever it is cut, nothing of it fails to verify,
      and nothing comes of it. Its second seal is too short to be taken for anything. */
  lemma PlainOfLastEmpty(a: Aead, k: nat, input: seq<byte>, fin: IoError)
    requires a.Lawful() && input <= EncodeFrame(a, k, Data([]))
    ensures Clean(a, k, input, fin) && Plain(a, k, input, fin) == []
  {
    var h := 2 + a.overhead;
    LengthFieldRoundTrip(0);
    if h <= |input| {
      assert input[..h] == a.Seal(k, BE16(0));
      assert |input[h..]| <= a.overhead;
      assert OpenRecord(a, k, input, fin) == Opened(Fail(ZeroChunk), input[h..], k + 1);
    }
  }

  /** Frames a peer will read back in full: no zero-length data frame but perhaps at the very end. */
  ghost predicate Deliverable(fs: seq<Frame>) {
    Aligned(fs) || (fs != [] && Aligned(fs[..|fs| - 1]) && fs[|fs| - 1] == Data([]))
  }

  /** The round trip for everything a connection can send by writes and one closing `ReadFrom`. */
  lemma PlainOfDeliverable(a: Aead, fs: seq<Frame>, input: seq<byte>, fin: IoError)
    requires a.Lawful() && Fits(fs) && Deliverable(fs) && input <= Encode(a, 0, fs)
    ensures Clean(a, 0, input, fin) && Plain(a, 0, input, fin) <= Payloads(fs)
    ensures input == Encode(a, 0, fs) ==> Plain(a, 0, input, fin) == Payloads(fs)
  {
    hide Encode, EncodeFrame, Payloads, Plain, Clean;
    if Aligned(fs) {
      PlainOfWire(a, 0, fs, input, fin);
    } else {
      var good := fs[..|fs| - 1];
      assert fs == good + [Data([])];
      EncodeSnoc(a, 0, good, Data([]));
      assert Payloads(good) + [] == Payloads(good);
      if |input| < |Encode(a, 0, good)| {
        PlainOfWire(a, 0, good, input, fin);
      } else {
        var tail := input[|Encode(a, 0, good)|..];
        assert input == Encode(a, 0, good) + tail;
        PlainOfFrames(a, 0, good, tail, fin);
        PlainOfLastEmpty(a, SealCount(good), tail, fin);
      }
    }
  }

  /** A reader that stands at `input` having opened `opens` messages, facing a writer that had sealed
      `seals` messages when it produced the frames `fs`: at every record boundary the two agree. */
  ghost predicate Lockstep(a: Aead, seals: nat, fs: seq<Frame>, opens: nat, input: seq<byte>, fin: IoError)
    requires a.Sized()
    decreases |fs|
  {
    && opens == seals
    && (fs != [] ==>
          var o := OpenRecord(a, opens, input, fin);
          Lockstep(a, seals + Seals(fs[0]), fs[1..], o.count, o.rest, fin))
  }

  lemma LockstepStep(a: Aead, k: nat, fs: seq<Frame>, tail: seq<byte>, fin: IoError)
    requires a.Lawful() && fs != [] && Fits([fs[0]])
    ensures var f := fs[0];
            Lockstep(a, k, fs, k, EncodeFrame(a, k, f) + tail, fin)
            <==> f != Data([]) && Lockstep(a, k + Seals(f), fs[1..], k + Seals(f), tail, fin)
  {
    OpenEncoded(a, k, fs[0], tail, fin);
  }

  lemma NothingIsAligned()
    ensures Aligned([])
  {
  }

  lemma AlignedCons(fs: seq<Frame>)
    requires fs != []
    ensures Aligned(fs) <==> fs[0] != Data([]) && Aligned(fs[1..])
  {
    assert forall i :: 1 <= i < |fs| ==> fs[i] == fs[1..][i - 1];
  }

  /** The counters stay in step on a whole stream exactly when no zero-length data frame is on it.
      `Write` never produces one; `ReadFrom` does whenever its last read returns no bytes. */
  lemma {:induction false} LockstepExactly(a: Aead, k: nat, fs: seq<Frame>, fin: IoError)
    requires a.Lawful() && Fits(fs)
    ensures Lockstep(a, k, fs, k, Encode(a, k, fs), fin) <==> Aligned(fs)
    decreases |fs|
  {
    hide EncodeFrame, Seals, OpenRecord, Nonce.At, BE16, FromBE16, Aligned;
    if fs == [] {
      NothingIsAligned();
    } else {
      var k' := k + Seals(fs[0]);
      var tail := Encode(a, k', fs[1..]);
      assert [fs[0]][0] == fs[0];
      calc {
        Lockstep(a, k, fs, k, Encode(a, k, fs), fin);
        { LockstepStep(a, k, fs, tail, fin); }
        fs[0] != Data([]) && Lockstep(a, k', fs[1..], k', tail, fin);
        { LockstepExactly(a, k', fs[1..], fin); }
        fs[0] != Data([]) && Aligned(fs[1..]);
        { AlignedCons(fs); }
        Aligned(fs);
      }
    }
  }
}

/** The TLS disguise of simple-obfs: a writer that hides its chunks in a ClientHello and application data
    records, and a reader that strips the server's records. */
module TlsObfs {
  import opened Bytes
  import opened Transport
  import opened TlsHello

  const CHUNK_SIZE := 16384

  function DataRecord(payload: seq<byte>): seq<byte> {
    [0x17, 0x03, 0x03] + BE16(|payload|) + payload
  }

  function DataRecords(chunks: seq<seq<byte>>): seq<byte> {
    if chunks == [] then [] else DataRecords(chunks[..|chunks| - 1]) + DataRecord(chunks[|chunks| - 1])
  }

  /** What the server sees: the first chunk in the hello, the others in records. */
  function Wire(server: seq<byte>, e: Entropy, chunks: seq<seq<byte>>): seq<byte> {
    if chunks == [] then [] else ClientHello(chunks[0], server, e) + DataRecords(chunks[1..])
  }

  // The server's side, written without reference to the writer.

  function DeframeRecords(b: seq<byte>): Option<seq<byte>>
    decreases |b|
  {
    if b == [] then Some([])
    else if |b| < 3 || b[..3] != [0x17, 0x03, 0x03] then None
    else
      match ParseVec16(b[3..])
      case None => None
      case Some((payload, rest)) =>
        match DeframeRecords(rest)
        case None => None
        case Some(more) => Some(payload + more)
  }

  function Ticket(list: seq<Extension>): seq<byte> {
    if list == [] then [] else if list[0].kind == 0x23 then list[0].body else Ticket(list[1..])
  }

  /** The session ticket of the hello, then the payloads of the records. */
  function Deframe(b: seq<byte>): Option<seq<byte>> {
    match ParseHello(b)
    case None => None
    case Some((h, rest)) =>
      match ParseExtensions(h.extensions)
      case None => None
      case Some(list) =>
        match DeframeRecords(rest)
        case None => None
        case Some(more) => Some(Ticket(list) + more)
  }

  ghost predicate SmallChunks(chunks: seq<seq<byte>>) {
    forall i :: 0 <= i < |chunks| ==> |chunks[i]| <= CHUNK_SIZE
  }

  lemma RecordInverts(payload: seq<byte>, rest: seq<byte>)
    requires |payload| < 0x1_0000
    ensures DeframeRecords(DataRecord(payload) + rest)
            == if DeframeRecords(rest).None? then None else Some(payload + DeframeRecords(rest).value)
  {
    var b := DataRecord(payload) + rest;
    assert b[..3] == [0x17, 0x03, 0x03] && b[3..] == BE16(|payload|) + (payload + rest);
    Vec16Inverts(payload, rest);
  }

  lemma {:induction false} RecordsInvert(chunks: seq<seq<byte>>, rest: seq<byte>)
    requires SmallChunks(chunks) && DeframeRecords(rest).Some?
    ensures DeframeRecords(DataRecords(chunks) + rest) == Some(Flatten(chunks) + DeframeRecords(rest).value)
  {
    if chunks == [] {
      assert [] + rest == rest;
      assert Flatten(chunks) + DeframeRecords(rest).value == DeframeRecords(rest).value;
    } else {
      var init, last := chunks[..|chunks| - 1], chunks[|chunks| - 1];
      RecordInverts(last, rest);
      RecordsInvert(init, DataRecord(last) + rest);
      Assoc(DataRecords(init), DataRecord(last), rest);
      FlattenSnoc(init, last);
      assert chunks == init + [last];
      Assoc(Flatten(init), last, DeframeRecords(rest).value);
    }
  }

  /** The server recovers exactly the bytes written, whatever they are. */
  lemma DeframeInvertsWire(server: seq<byte>, e: Entropy, chunks: seq<seq<byte>>)
    requires e.Sized() && chunks != [] && SmallChunks(chunks)
    requires 212 + |chunks[0]| + |server| < 0x1_0000
    ensures Deframe(Wire(server, e, chunks)) == Some(Flatten(chunks))
  {
    hide ParseHello, ParseExtensions, DataRecords, ClientHello, Extensions;
    var first, records := chunks[0], DataRecords(chunks[1..]);
    HelloInverts(first, server, e, records);
    ExtensionsInvert(first, server);
    RecordsInvert(chunks[1..], []);
    assert records + [] == records;
    assert Flatten(chunks[1..]) + [] == Flatten(chunks[1..]);
    assert Ticket(ExpectedExtensions(first, server)) == first;
  }

  // What the client makes of the server's stream.

  /** Payload bytes still to come: the rest of the current frame, then frame after frame, each behind a
      header of 105 bytes the first time and 3 bytes from then on, and a two-byte length. */
  function Coming(first: bool, remain: nat, input: seq<byte>): seq<byte>
    decreases |input|
  {
    if remain > 0 then
      if |input| <= remain then input else input[..remain] + Coming(first, 0, input[remain..])
    else
      var header := if first then 105 else 3;
      if |input| < header + 2 then []
      else Coming(false, FromBE16(input[header..header + 2]), input[header + 2..])
  }

  /** A server frame: header bytes, whatever they say, then the length and the payload. */
  datatype Frame = Frame(header: seq<byte>, payload: seq<byte>)

  function Framed(frames: seq<Frame>): seq<byte> {
    if frames == [] then []
    else frames[0].header + BE16(|frames[0].payload|) + frames[0].payload + Framed(frames[1..])
  }

  function FramePayloads(frames: seq<Frame>): seq<byte> {
    if frames == [] then [] else frames[0].payload + FramePayloads(frames[1..])
  }

  ghost predicate ServerFrames(first: bool, frames: seq<Frame>) {
    forall i :: 0 <= i < |frames| ==>
      && |frames[i].header| == (if first && i == 0 then 105 else 3)
      && |frames[i].payload| < 0x1_0000
  }

  lemma ComingOfPayload(first: bool, payload: seq<byte>, rest: seq<byte>)
    ensures Coming(first, |payload|, payload + rest) == payload + Coming(first, 0, rest)
  {
    if payload == [] {
      assert payload + rest == rest;
    } else if rest == [] {
      assert payload + rest == payload;
    } else {
      assert (payload + rest)[..|payload|] == payload && (payload + rest)[|payload|..] == rest;
    }
  }

  /** From a framed stream, the concatenation of the payloads. */
  lemma {:induction false} ComingOfFramed(first: bool, frames: seq<Frame>)
    requires ServerFrames(first, frames)
    ensures Coming(first, 0, Framed(frames)) == FramePayloads(frames)
    decreases |frames|
  {
    if frames != [] {
      var f, later := frames[0], Framed(frames[1..]);
      var b := f.header + BE16(|f.payload|) + f.payload + later;
      var n := |f.header|;
      assert b[n..n + 2] == BE16(|f.payload|) && b[n + 2..] == f.payload + later;
      BE16RoundTrip(|f.payload|);
      ComingOfPayload(false, f.payload, later);
      ComingOfFramed(false, frames[1..]);
    }
  }

  lemma ComingNone(first: bool, remain: nat)
    ensures Coming(first, remain, []) == []
  {
  }

  lemma ComingOfFrame(first: bool, input: seq<byte>)
    ensures var header := if first then 105 else 3;
            Coming(first, 0, input) == if |input| < header + 2 then []
                                       else Coming(false, FromBE16(input[header..header + 2]), input[header + 2..])
  {
  }

  /** Taking bytes of the current frame off the stream leaves the rest of it to come. */
  lemma ComingSplits(first: bool, length: nat, rest: seq<byte>, n: nat)
    requires n <= length && n <= |rest|
    ensures rest[..n] + Coming(first, length - n, rest[n..]) == Coming(first, length, rest)
  {
    if n == 0 {
      assert rest[n..] == rest && rest[..n] == [];
    } else if |rest| <= length {
      assert rest == rest[..n] + rest[n..];
    } else {
      var left := rest[n..];
      assert rest[..length] == rest[..n] + left[..length - n];
      assert left[length - n..] == rest[length..];
      Assoc(rest[..n], left[..length - n], Coming(first, 0, rest[length..]));
      assert left[..0] + Coming(first, 0, left) == Coming(first, 0, left);
    }
  }

  /** A stream cut short yields a prefix of what the whole stream yields. */
  lemma {:induction false} ComingMonotone(first: bool, remain: nat, input: seq<byte>, whole: seq<byte>)
    requires input <= whole
    ensures Coming(first, remain, input) <= Coming(first, remain, whole)
    decreases |input|
  {
    if remain > 0 {
      if remain < |input| {
        ComingMonotone(first, 0, input[remain..], whole[remain..]);
        PrefixCons(input[..remain], Coming(first, 0, input[remain..]), Coming(first, 0, whole[remain..]));
      }
    } else {
      var header := if first then 105 else 3;
      if header + 2 <= |input| {
        var n := FromBE16(input[header..header + 2]);
        assert input[header..header + 2] == whole[header..header + 2];
        ComingMonotone(false, n, input[header + 2..], whole[header + 2..]);
      }
    }
  }

  lemma HeaderSplit(input: seq<byte>, n: nat)
    requires n + 2 <= |input|
    ensures input[n..][..2] == input[n..n + 2] && input[n..][2..] == input[n + 2..]
  {
  }

  /** The chunks a write is cut into. */
  function Cuts(b: seq<byte>): seq<seq<byte>> {
    if b == [] then [] else [b[..Min(CHUNK_SIZE, |b|)]] + Cuts(b[Min(CHUNK_SIZE, |b|)..])
  }

  /** They are all of 16384 bytes, but for the last, which is not empty; an empty write has none. */
  lemma {:induction false} CutsExactly(b: seq<byte>)
    ensures Flatten(Cuts(b)) == b && |Cuts(b)| == (|b| + 16383) / 16384
    ensures forall k :: 0 <= k < |Cuts(b)| ==> |Cuts(b)[k]| == Min(16384, |b| - 16384 * k)
  {
    if b != [] {
      var n := Min(CHUNK_SIZE, |b|);
      CutsExactly(b[n..]);
      assert b[..n] + b[n..] == b;
      assert Flatten(Cuts(b)) == b[..n] + Flatten(Cuts(b[n..])) by {
        assert Cuts(b)[1..] == Cuts(b[n..]);
      }
    }
  }

  lemma CutAt(b: seq<byte>, i: nat)
    requires i < |b|
    ensures var left, end := b[i..], Min(i + CHUNK_SIZE, |b|);
            b[i..end] == left[..Min(CHUNK_SIZE, |left|)] && b[end..] == left[Min(CHUNK_SIZE, |left|)..]
  {
  }

  /** Two chunk lists, of which the second goes on where the first ends. */
  lemma MovesOn(done: seq<seq<byte>>, b: seq<byte>)
    requires b != []
    ensures var n := Min(CHUNK_SIZE, |b|);
            (done + [b[..n]]) + Cuts(b[n..]) == done + Cuts(b)
  {
    var n := Min(CHUNK_SIZE, |b|);
    var first, rest := [b[..n]], Cuts(b[n..]);
    assert Cuts(b) == first + rest;
    hide Cuts;
    assert (done + first) + rest == done + (first + rest);
  }

  class TLSObfs {
    const src: Source
    const sink: Sink
    const server: seq<byte>
    var remain: nat
    var firstRequest: bool
    var firstResponse: bool
    ghost var entropy: Entropy
    ghost var chunks: seq<seq<byte>> // the chunks written so far

    /** While nothing has failed, the wire is the hello with the first chunk and a record for each other. */
    ghost predicate Valid()
      reads this, sink
    {
      && entropy.Sized() && SmallChunks(chunks)
      && (firstRequest <==> chunks == [])
      && (!sink.failed ==> sink.sent == Wire(server, entropy, chunks))
    }

    constructor (src: Source, sink: Sink, server: seq<byte>)
      requires sink.sent == [] && !sink.failed
      ensures Valid() && this.src == src && this.sink == sink && this.server == server
      ensures chunks == [] && firstResponse && remain == 0
    {
      this.src, this.sink, this.server := src, sink, server;
      remain, firstRequest, firstResponse := 0, true, true;
      chunks, entropy := [], Entropy(seq(4, _ => 0), seq(28, _ => 0), seq(32, _ => 0));
    }

    /** The server can read back what was written as long as the hello's length fits. */
    lemma ServerReads()
      requires Valid() && !sink.failed && chunks != [] && 212 + |chunks[0]| + |server| < 0x1_0000
      ensures Deframe(sink.sent) == Some(Flatten(chunks))
    {
      DeframeInvertsWire(server, entropy, chunks);
    }

    /** `write`: one chunk, in the hello the first time and in a record of its own afterwards. */
    method WriteChunk(b: seq<byte>) returns (n: nat, err: Option<IoError>)
      requires Valid() && |b| <= CHUNK_SIZE
      modifies this`firstRequest, this`entropy, this`chunks, sink
      ensures Valid() && chunks == old(chunks) + [b]
      ensures n == |b| && sink.failed == (old(sink.failed) || err.Some?)
    {
      hide ClientHello;
      ghost var was := chunks;
      chunks := chunks + [b];
      n := |b|;
      if firstRequest {
        var time: seq<byte>, random: seq<byte>, sessionID: seq<byte> := *, *, *;
        if |time| != 4 || |random| != 28 || |sessionID| != 32 {
          time, random, sessionID := seq(4, _ => 0), seq(28, _ => 0), seq(32, _ => 0);
        }
        var e := Entropy(time, random, sessionID);
        var helloMsg := MakeClientHello(b, server, e);
        entropy, firstRequest := e, false;
        var nw;
        nw, err := sink.Write(helloMsg);
        assert chunks == [b] && DataRecords(chunks[1..]) == [];
        return;
      }
      var buf := [0x17, 0x03, 0x03];
      buf := buf + BE16(|b|);
      buf := buf + b;
      assert chunks[1..] == was[1..] + [b];
      Assoc(ClientHello(was[0], server, entropy), DataRecords(was[1..]), buf);
      var nw;
      nw, err := sink.Write(buf);
    }

    /** `Write`: chunks of 16384 bytes and what is left; an empty write puts nothing on the wire. */
    method Write(b: seq<byte>) returns (n: nat, err: Option<IoError>)
      requires Valid()
      modifies this`firstRequest, this`entropy, this`chunks, sink
      ensures Valid() && sink.failed == (old(sink.failed) || err.Some?)
      ensures old(chunks) <= chunks <= old(chunks) + Cuts(b)
      ensures Flatten(chunks) <= Flatten(old(chunks)) + b
      ensures err.None? ==> n == |b| && chunks == old(chunks) + Cuts(b) && Flatten(chunks) == Flatten(old(chunks)) + b
      ensures b == [] ==> sink.sent == old(sink.sent)
    {
      hide Valid, Cuts, Flatten, SmallChunks, Wire;
      var length := |b|;
      var i := 0;
      ghost var before, left := chunks, b;
      FlattenCuts(before, chunks, b, left);
      while i < length
        invariant Valid() && before <= chunks && sink.failed == old(sink.failed)
        invariant left == b[Min(i, length)..] && chunks + Cuts(left) == before + Cuts(b)
        invariant b == [] ==> sink.sent == old(sink.sent)
        decreases length - i
      {
        var end := i + CHUNK_SIZE;
        if end > length {
          end := length;
        }
        CutAt(b, i);
        MovesOn(chunks, left);
        left := b[end..];
        n, err := WriteChunk(b[i..end]);
        if err.Some? {
          FlattenCuts(before, chunks, b, left);
          return;
        }
        i := i + CHUNK_SIZE;
      }
      FlattenCuts(before, chunks, b, left);
      return length, None;
    }

    static lemma FlattenCuts(before: seq<seq<byte>>, chunks: seq<seq<byte>>, b: seq<byte>, left: seq<byte>)
      requires before <= chunks && chunks + Cuts(left) == before + Cuts(b)
      ensures chunks <= before + Cuts(b) && Flatten(chunks) <= Flatten(before) + b
      ensures left == [] ==> chunks == before + Cuts(b) && Flatten(chunks) == Flatten(before) + b
    {
      hide Flatten;
      CutsExactly(b);
      CutsExactly(left);
      FlattenAppend(chunks, Cuts(left));
      FlattenAppend(before, Cuts(b));
    }

    /** What the reader will still deliver. */
    ghost function Future(): seq<byte>
      reads this, src
    {
      Coming(firstResponse, remain, src.input)
    }

    /** Length of the frame being delivered: what is left of the current one, or the whole of the next. */
    ghost function CurrentFrame(): nat
      reads this, src
    {
      var header := if firstResponse then 105 else 3;
      if remain > 0 then remain
      else if |src.input| < header + 2 then 0
      else FromBE16(src.input[header..header + 2])
    }

    /** `read`: strips a header of `discardN` bytes and the length of the frame behind it. */
    method ReadFrame(b: array<byte>, discardN: nat) returns (n: nat, err: Option<IoError>)
      requires remain == 0 && !firstResponse
      modifies src, b, this`remain
      ensures n <= b.Length && (err.Some? ==> src.input == [] && remain == 0)
      ensures |old(src.input)| < discardN + 2 ==> n == 0 && src.input == [] && remain == 0
      ensures |old(src.input)| >= discardN + 2 ==>
                var length := FromBE16(old(src.input)[discardN..discardN + 2]);
                && b[..n] + Future() == Coming(false, length, old(src.input)[discardN + 2..])
                && (err.None? ==> remain == length - n && (length > 0 && b.Length > 0 ==> n > 0))
      ensures err.None? && discardN > 0 ==> |src.input| < |old(src.input)|
    {
      hide Coming, FromBE16;
      ComingNone(false, 0);
      var scratch := new byte[discardN + 2];
      var got;
      got, err := ReadFull(src, scratch, 0, discardN);
      if err.Some? {
        return 0, err;
      }
      ghost var behind := src.input;
      got, err := ReadFull(src, scratch, discardN, discardN + 2);
      if err.Some? {
        return 0, None;
      }
      HeaderSplit(old(src.input), discardN);
      assert scratch[discardN..discardN + 2] == scratch[discardN..discardN + got] == behind[..got];
      var length := FromBE16(scratch[discardN..discardN + 2]);
      n, err := ReadPayload(b, length);
    }

    /** The part of `read` behind the length: as much of the frame as there is room for. */
    method ReadPayload(b: array<byte>, length: nat) returns (n: nat, err: Option<IoError>)
      requires remain == 0 && !firstResponse
      modifies src, b, this`remain
      ensures n <= b.Length && (err.Some? ==> src.input == [] && remain == 0)
      ensures b[..n] + Future() == Coming(false, length, old(src.input))
      ensures err.None? ==> remain == length - n && (length > 0 && b.Length > 0 ==> n > 0)
      ensures |src.input| <= |old(src.input)|
    {
      hide Coming;
      ghost var rest := src.input;
      if length > b.Length {
        n, err := src.Read(b, 0, b.Length);
        if err.None? {
          remain := length - n;
        }
      } else {
        n, err := ReadFull(src, b, 0, length);
      }
      assert b[..n] == b[0..0 + n];
      ComingSplits(false, length, rest, n);
      ComingNone(false, length - n);
      ComingNone(false, 0);
    }

    /** `Read`: for every stream, every buffer and every fragmentation the bytes handed out are the next
        bytes of the payloads, and `remain` is what is then left of the current frame. */
    method Read(b: array<byte>) returns (n: nat, err: Option<IoError>)
      modifies this`remain, this`firstResponse, src, b
      ensures n <= b.Length
      ensures b[..n] + Future() == old(Future())
      ensures err.None? && old(CurrentFrame()) > 0 && b.Length > 0 ==> n > 0
      ensures old(remain) > 0 ==> n == Min(Min(old(remain), b.Length), |old(src.input)|) && remain == old(remain) - n
      ensures err.None? && old(remain) > 0 ==> n == Min(old(remain), b.Length)
      ensures err.Some? && old(remain) == 0 ==> remain == 0
      ensures err.None? && remain > 0 ==> remain == old(CurrentFrame()) - n
      ensures err.None? && remain == 0 && src.input != [] ==> n == old(CurrentFrame())
      ensures err.Some? ==> Future() == []
      ensures err.None? && b.Length > 0 ==> |src.input| < |old(src.input)|
    {
      hide FromBE16, Coming;
      ComingOfFrame(firstResponse, src.input);
      ComingNone(false, 0);
      if remain > 0 {
        var length := remain;
        if length > b.Length {
          length := b.Length;
        }
        ComingSplits(firstResponse, remain, src.input, Min(length, |src.input|));
        n, err := ReadFull(src, b, 0, length);
        assert b[..n] == b[0..0 + n];
        remain := remain - n;
        ComingNone(firstResponse, remain);
        return;
      }
      if firstResponse {
        firstResponse := false;
        n, err := ReadFrame(b, 105);
        return;
      }
      n, err := ReadFrame(b, 3);
    }
  }

  /** Reading until an error, as `io.ReadAll` does, into buffers of any size: everything that was to come. */
  method ReadAll(t: TLSObfs, size: nat) returns (out: seq<byte>)
    requires size > 0
    modifies t`remain, t`firstResponse, t.src
    ensures out == old(t.Future())
  {
    out := [];
    var ended := false;
    while !ended
      invariant out + t.Future() == old(t.Future())
      invariant ended ==> t.Future() == []
      decreases !ended, |t.src.input|
    {
      hide Coming;
      var b := new byte[size];
      var n, err := t.Read(b);
      Assoc(out, b[..n], t.Future());
      out := out + b[..n];
      ended := err.Some?;
    }
  }

  /** From any framed server stream, cut anywhere and in any fragments: reads into buffers of any sizes, and then
      reading to the end, give a prefix of the concatenated payloads, and all of it when nothing was cut. */
  method Receive(frames: seq<Frame>, cut: nat, fin: IoError, coupled: bool, sizes: seq<nat>, size: nat)
      returns (out: seq<byte>)
    requires ServerFrames(true, frames) && size > 0
    ensures out <= FramePayloads(frames)
    ensures |Framed(frames)| <= cut ==> out == FramePayloads(frames)
  {
    hide Coming, Framed, FramePayloads, ServerFrames;
    var wire := Framed(frames)[..Min(cut, |Framed(frames)|)];
    assert |Framed(frames)| <= cut ==> wire == Framed(frames);
    ComingOfFramed(true, frames);
    ComingMonotone(true, 0, wire, Framed(frames));
    var src := new Source(wire, fin, coupled);
    var sink := new Sink();
    var t := new TLSObfs(src, sink, []);
    out := [];
    ghost var future := t.Future();
    for i := 0 to |sizes|
      invariant t.src == src && out + t.Future() == future
    {
      var b := new byte[sizes[i]];
      var n, err := t.Read(b);
      Assoc(out, b[..n], t.Future());
      out := out + b[..n];
    }
    var rest := ReadAll(t, size);
    out := out + rest;
  }
}

/** Shadowsocks connections over a stream cipher: an IV, then the plaintext under a cipher that keeps its
    position between calls. */
module CipherStream {
  import opened Bytes
  import opened Transport

  const BUF_SIZE := 2048

  /** A stream cipher under each IV, as a function of everything processed since the IV. */
  datatype Cipher = Cipher(
    ivSize: nat, enc: (seq<byte>, seq<byte>) -> seq<byte>, dec: (seq<byte>, seq<byte>) -> seq<byte>)
  {
    /** What is assumed: output keeps pace with input, later input does not change earlier output, and
        decryption undoes encryption. */
    ghost predicate Lawful() {
      && (forall iv, p :: |enc(iv, p)| == |p|)
      && (forall iv, p :: |dec(iv, p)| == |p|)
      && (forall iv, p, q :: enc(iv, p) <= enc(iv, p + q))
      && (forall iv, p, q :: dec(iv, p) <= dec(iv, p + q))
      && (forall iv, p :: dec(iv, enc(iv, p)) == p)
    }

    function Run(decrypting: bool, iv: seq<byte>, p: seq<byte>): seq<byte> {
      if decrypting then dec(iv, p) else enc(iv, p)
    }

    /** One call of `XORKeyStream` after `done` has been processed. */
    function Xored(decrypting: bool, iv: seq<byte>, done: seq<byte>, p: seq<byte>): (out: seq<byte>)
      requires Lawful()
      ensures |out| == |p|
      ensures Run(decrypting, iv, done) + out == Run(decrypting, iv, done + p)
    {
      Run(decrypting, iv, done + p)[|done|..]
    }

    /** The cipher is a homomorphism on concatenation: cutting the input makes no difference. */
    lemma XoredInPieces(decrypting: bool, iv: seq<byte>, done: seq<byte>, p: seq<byte>, q: seq<byte>)
      requires Lawful()
      ensures Xored(decrypting, iv, done, p + q)
              == Xored(decrypting, iv, done, p) + Xored(decrypting, iv, done + p, q)
    {
      Assoc(done, p, q);
      Assoc(Run(decrypting, iv, done), Xored(decrypting, iv, done, p), Xored(decrypting, iv, done + p, q));
      var whole := Run(decrypting, iv, done + p + q);
      assert whole == Run(decrypting, iv, done)
             + (Xored(decrypting, iv, done, p) + Xored(decrypting, iv, done + p, q));
    }

    /** Any prefix of a ciphertext decrypts to that much of the plaintext. */
    lemma PrefixDecrypts(iv: seq<byte>, p: seq<byte>, c: seq<byte>)
      requires Lawful() && c <= enc(iv, p)
      ensures dec(iv, c) <= p && (c == enc(iv, p) ==> dec(iv, c) == p)
    {
      assert enc(iv, p) == c + enc(iv, p)[|c|..];
      assert dec(iv, c) <= dec(iv, enc(iv, p));
    }
  }

  /** The assumptions can be met, by a cipher that does something. */
  lemma LawsAreConsistent(ivSize: nat)
    ensures Cipher(ivSize, (iv, p) => RotatedAll(p, 1), (iv, p) => RotatedAll(p, 255)).Lawful()
  {
    forall p ensures RotatedAll(RotatedAll(p, 1), 255) == p {
    }
  }

  /** The cipher object both directions share the shape of: its position moves with every call. */
  class Stream {
    const cipher: Cipher
    const decrypting: bool
    const iv: seq<byte>
    var done: seq<byte>

    constructor (cipher: Cipher, decrypting: bool, iv: seq<byte>)
      ensures this.cipher == cipher && this.decrypting == decrypting && this.iv == iv && done == []
    {
      this.cipher, this.decrypting, this.iv, done := cipher, decrypting, iv, [];
    }

    function Out(): seq<byte>
      reads this
    {
      cipher.Run(decrypting, iv, done)
    }

    /** `XORKeyStream(dst, src)`, where `src` may be the front of `dst` itself. */
    method XORKeyStream(dst: array<byte>, src: seq<byte>)
      requires cipher.Lawful() && |src| <= dst.Length
      modifies this, dst
      ensures done == old(done) + src && Out() == old(Out()) + dst[..|src|]
      ensures dst[..|src|] == cipher.Xored(decrypting, iv, old(done), src)
    {
      Blit(dst, 0, cipher.Xored(decrypting, iv, done, src));
      assert dst[..|src|] == dst[0..0 + |src|];
      done := done + src;
    }
  }

  class Writer {
    const sink: Sink
    const stream: Stream
    const buf: array<byte>
    ghost const base: seq<byte> // what the sink held before

    ghost predicate Valid()
      reads this, sink, stream
    {
      && stream.cipher.Lawful() && !stream.decrypting
      && buf.Length == BUF_SIZE
      && sink.sent <= base + stream.Out()
      && (!sink.failed ==> sink.sent == base + stream.Out())
    }

    constructor (sink: Sink, stream: Stream)
      requires stream.cipher.Lawful() && !stream.decrypting && stream.done == []
      ensures Valid() && this.sink == sink && this.stream == stream && base == sink.sent && fresh(buf)
    {
      this.sink, this.stream, this.base := sink, stream, sink.sent;
      buf := new byte[BUF_SIZE];
      new;
      assert sink.sent + [] == sink.sent;
    }

    /** One buffer's worth: encrypted into the buffer, at the cipher's position, and written. */
    method Push(b: seq<byte>) returns (n: nat, err: Option<IoError>)
      requires Valid() && !sink.failed && |b| <= BUF_SIZE
      modifies sink, stream, buf
      ensures Valid() && stream.done == old(stream.done) + b
      ensures sink.failed == err.Some? && n <= |b| && (err.None? ==> n == |b|)
    {
      stream.XORKeyStream(buf, b);
      ghost var out := old(stream.Out());
      Assoc(base, out, buf[..|b|]);
      n, err := sink.Write(buf[..|b|]);
      PrefixCons(base + out, buf[..|b|][..n], buf[..|b|]);
      if err.None? {
        assert buf[..|b|][..n] == buf[..|b|];
      }
    }

    /** `Write`: in chunks of at most 2048 bytes. While nothing fails, the sink holds the encryption of
        everything written, as if by one call. */
    method Write(p: seq<byte>) returns (n: nat, err: Option<IoError>)
      requires Valid() && !sink.failed
      modifies sink, stream, buf
      ensures Valid() && sink.failed == err.Some?
      ensures old(stream.done) <= stream.done <= old(stream.done) + p
      ensures err.None? ==> n == |p| && stream.done == old(stream.done) + p
    {
      n, err := 0, None;
      while n < |p| && err.None?
        invariant n <= |p| && Valid() && sink.failed == err.Some?
        invariant err.None? ==> stream.done == old(stream.done) + p[..n]
        invariant old(stream.done) <= stream.done <= old(stream.done) + p
        decreases if err.None? then |p| - n else 0
      {
        var end := Min(n + BUF_SIZE, |p|);
        Assoc(old(stream.done), p[..n], p[n..end]);
        assert p[..n] + p[n..end] == p[..end];
        assert p == p[..end] + p[end..];
        PrefixCons(old(stream.done), p[..end], p);
        var nw;
        nw, err := Push(p[n..end]);
        n := n + nw;
      }
      assert p[..|p|] == p;
    }

    /** `ReadFrom`: the same stream when its input comes in fragments; the end of the input is not an error. */
    method ReadFrom(r: Source) returns (n: nat, err: Option<IoError>)
      requires Valid() && !sink.failed
      modifies r, sink, stream, buf
      ensures Valid()
      ensures old(stream.done) <= stream.done <= old(stream.done) + old(r.input)
      ensures !sink.failed ==>
                && n == |old(r.input)| && stream.done == old(stream.done) + old(r.input) && r.input == []
                && err == if r.fin == Eof then None else Some(r.fin)
      ensures sink.failed ==> err.Some?
    {
      n, err := 0, None;
      ghost var all := r.input;
      var ended := false;
      assert all[..0] == [] && old(stream.done) + [] == old(stream.done);
      while !ended
        invariant n <= |all| && r.input == all[n..]
        invariant Valid() && (sink.failed ==> ended && err.Some?)
        invariant stream.done == old(stream.done) + all[..n]
        invariant ended && !sink.failed ==> n == |all| && err == if r.fin == Eof then None else Some(r.fin)
        decreases !ended, |r.input|
      {
        ended, n, err := Turn(r, all, n, old(stream.done));
      }
      assert all[..|all|] == all;
    }

    /** One turn of `ReadFrom`. */
    method Turn(r: Source, ghost all: seq<byte>, n: nat, ghost before: seq<byte>)
        returns (ended: bool, m: nat, err: Option<IoError>)
      requires Valid() && !sink.failed && n <= |all| && r.input == all[n..] && stream.done == before + all[..n]
      modifies r, sink, stream, buf
      ensures Valid() && n <= m <= |all| && r.input == all[m..] && stream.done == before + all[..m]
      ensures sink.failed ==> ended && err.Some?
      ensures ended && !sink.failed ==> m == |all| && err == if r.fin == Eof then None else Some(r.fin)
      ensures !ended ==> |r.input| < |old(r.input)|
    {
      var nr, er := r.Read(buf, 0, BUF_SIZE);
      assert buf[0..0 + nr] == buf[..nr] == all[n..n + nr];
      Assoc(before, all[..n], all[n..n + nr]);
      assert all[..n] + all[n..n + nr] == all[..n + nr];
      m := n + nr;
      var nw;
      nw, err := Push(buf[..nr]);
      ended := err.Some? || er.Some?;
      if err.None? && er.Some? && er.value != Eof {
        err := er;
      }
    }
  }

  class Reader {
    const src: Source
    const stream: Stream
    const buf: array<byte>

    ghost predicate Valid()
      reads this
    {
      stream.cipher.Lawful() && stream.decrypting && buf.Length == BUF_SIZE
    }

    constructor (src: Source, stream: Stream)
      requires stream.cipher.Lawful() && stream.decrypting
      ensures Valid() && this.src == src && this.stream == stream && fresh(buf)
    {
      this.src, this.stream := src, stream;
      buf := new byte[BUF_SIZE];
    }

    /** `Read`: decrypts in place what one read of the transport gives. When that read also reports an error
        its data, which is then the rest of the stream, is dropped and the cipher does not move: this happens
        to the last fragment of a coupled connection, and to nothing else. */
    method Read(p: array<byte>) returns (n: nat, err: Option<IoError>)
      requires Valid()
      modifies src, stream, p
      ensures n <= p.Length
      ensures err.None? ==>
                && n <= |old(src.input)| && src.input == old(src.input)[n..]
                && stream.done == old(stream.done) + old(src.input)[..n]
                && stream.Out() == old(stream.Out()) + p[..n]
                && (p.Length > 0 ==> n > 0 && (src.coupled ==> src.input != []))
      ensures err.Some? ==>
                && n == 0 && err == Some(src.fin) && src.input == [] && stream.done == old(stream.done)
                && |old(src.input)| <= p.Length && (old(src.input) != [] ==> src.coupled)
    {
      n, err := src.Read(p, 0, p.Length);
      if err.Some? {
        return 0, err;
      }
      assert p[0..0 + n] == p[..n];
      stream.XORKeyStream(p, p[..n]);
    }

    /** `WriteTo`: everything that is left goes to `w`, data that comes with the final error included. */
    method WriteTo(w: Sink) returns (n: nat, err: Option<IoError>)
      requires Valid() && !w.failed
      modifies src, stream, buf, w
      ensures !w.failed ==>
                && n == |old(src.input)| && src.input == [] && stream.done == old(stream.done) + old(src.input)
                && w.sent == old(w.sent) + stream.cipher.Xored(true, stream.iv, old(stream.done), old(src.input))
                && err == if src.fin == Eof then None else Some(src.fin)
      ensures w.failed ==> err.Some?
    {
      n, err := 0, None;
      ghost var all, before := src.input, stream.done;
      var ended := false;
      assert all[..0] == [] && before + [] == before && w.sent + [] == w.sent;
      while !ended
        invariant n <= |all|
        invariant w.failed ==> ended && err.Some?
        invariant !w.failed ==> src.input == all[n..] && stream.done == before + all[..n]
        invariant !w.failed ==>
                    w.sent == old(w.sent) + stream.cipher.Xored(true, stream.iv, before, all[..n])
        invariant ended && !w.failed ==> n == |all| && err == if src.fin == Eof then None else Some(src.fin)
        decreases !ended, |src.input|
      {
        ended, n, err := Turn(w, all, n, before, old(w.sent));
      }
      assert all[..|all|] == all;
    }

    /** One turn of `WriteTo`. */
    method Turn(w: Sink, ghost all: seq<byte>, n: nat, ghost before: seq<byte>, ghost held: seq<byte>)
        returns (ended: bool, m: nat, err: Option<IoError>)
      requires Valid() && !w.failed && n <= |all| && src.input == all[n..] && stream.done == before + all[..n]
      requires w.sent == held + stream.cipher.Xored(true, stream.iv, before, all[..n])
      modifies src, stream, buf, w
      ensures n <= m <= |all|
      ensures w.failed ==> ended && err.Some?
      ensures !w.failed ==>
                && src.input == all[m..] && stream.done == before + all[..m]
                && w.sent == held + stream.cipher.Xored(true, stream.iv, before, all[..m])
      ensures ended && !w.failed ==> m == |all| && err == if src.fin == Eof then None else Some(src.fin)
      ensures !ended ==> |src.input| < |old(src.input)|
    {
      var nr, er := src.Read(buf, 0, BUF_SIZE);
      assert buf[0..0 + nr] == buf[..nr] == all[n..n + nr];
      Assoc(before, all[..n], all[n..n + nr]);
      assert all[..n] + all[n..n + nr] == all[..n + nr];
      m, err := n, None;
      if nr > 0 {
        stream.cipher.XoredInPieces(true, stream.iv, before, all[..n], all[n..n + nr]);
        stream.XORKeyStream(buf, buf[..nr]);
        var nw, ew := w.Write(buf[..nr]);
        m := n + nw;
        if ew.Some? {
          return true, m, ew;
        }
        assert buf[..nr][..nw] == buf[..nr];
        Assoc(held, stream.cipher.Xored(true, stream.iv, before, all[..n]), buf[..nr]);
      }
      ended := er.Some?;
      if er.Some? && er.value != Eof {
        err := er;
      }
    }
  }

  /** A byte that is lost: it is all there is, and comes together with the end of the stream. */
  method LastByteIsLost(cipher: Cipher, iv: seq<byte>, x: byte, p: array<byte>)
      returns (n: nat, err: Option<IoError>, left: seq<byte>)
    requires cipher.Lawful() && p.Length > 0
    modifies p
    ensures n == 0 && err == Some(Eof) && left == []
  {
    var src := new Source([x], Eof, true);
    var stream := new Stream(cipher, true, iv);
    var r := new Reader(src, stream);
    n, err := r.Read(p);
    left := src.input;
  }
}

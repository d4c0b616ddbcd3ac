/** The byte streams below every protocol: what an `io.Reader` and an `io.Writer` promise. */
module Transport {
  import opened Bytes

  datatype IoError = Eof | UnexpectedEof | OtherError

  /** The receiving side of a connection. `input` is what the peer sent and nobody has read yet; it arrives in
      fragments of any size. When the connection is `coupled`, the read that takes the last of it reports the
      final error as well; otherwise the error comes alone, with the next read. */
  class Source {
    var input: seq<byte>
    const fin: IoError
    const coupled: bool

    constructor (input: seq<byte>, fin: IoError, coupled: bool)
      ensures this.input == input && this.fin == fin && this.coupled == coupled
    {
      this.input := input;
      this.fin, this.coupled := fin, coupled;
    }

    /** `Read(p[lo:hi])`: at least one byte or an error when there is room; the unfilled part of the
        window may be used as scratch space. */
    method Read(p: array<byte>, lo: nat, hi: nat) returns (n: nat, err: Option<IoError>)
      requires lo <= hi <= p.Length
      modifies this, p
      ensures n <= hi - lo && n <= |old(input)|
      ensures p[lo..lo + n] == old(input)[..n]
      ensures p[..lo] == old(p[..lo]) && p[hi..] == old(p[hi..])
      ensures input == old(input)[n..]
      ensures err.Some? ==> input == [] && err.value == fin
      ensures err.None? && lo < hi ==> 0 < n
      ensures 0 < n && input == [] ==> (err.Some? <==> coupled)
    {
      var most := Min(hi - lo, |input|);
      n :| 0 <= n <= most && (0 < most ==> 0 < n);
      Blit(p, lo, input[..n]);
      for i := lo + n to hi
        invariant p[lo..lo + n] == input[..n]
        invariant p[..lo] == old(p[..lo]) && p[hi..] == old(p[hi..])
        modifies p
      {
        p[i] := *;
      }
      input := input[n..];
      err := None;
      if input == [] {
        if n > 0 {
          err := if coupled then Some(fin) else None;
        } else if lo < hi {
          err := Some(fin);
        } else if * {
          err := Some(fin);
        }
      }
    }
  }

  /** What `io.ReadFull` reports when `want` bytes are asked of a stream that has `have` left. */
  function FullError(want: nat, have: nat, fin: IoError): Option<IoError> {
    if want <= have then None
    else if 0 < have && fin == Eof then Some(UnexpectedEof)
    else Some(fin)
  }

  /** One more read into a window that holds the first `n` bytes of `all` already. */
  method ReadMore(src: Source, p: array<byte>, lo: nat, hi: nat, n: nat, ghost all: seq<byte>)
      returns (m: nat, err: Option<IoError>)
    requires lo + n < hi <= p.Length && n <= |all|
    requires p[lo..lo + n] == all[..n] && src.input == all[n..]
    modifies src, p
    ensures n <= m <= |all| && lo + m <= hi && (n < m || err.Some?)
    ensures p[lo..lo + m] == all[..m] && src.input == all[m..]
    ensures p[..lo] == old(p[..lo]) && p[hi..] == old(p[hi..])
    ensures err.Some? ==> m == |all| && err.value == src.fin
  {
    ghost var was := p[..];
    var nn, e := src.Read(p, lo + n, hi);
    m, err := n + nn, e;
    assert p[lo..lo + n] == p[..lo + n][lo..] == was[..lo + n][lo..] == was[lo..lo + n];
    assert p[lo..lo + m] == p[lo..lo + n] + p[lo + n..lo + m];
    assert all[..m] == all[..n] + all[n..][..nn];
    assert p[..lo] == p[..lo + n][..lo] && was[..lo] == was[..lo + n][..lo];
  }

  /** `io.ReadFull(src, p[lo:hi])`: its result is a function of the stream, not of its fragments. */
  method ReadFull(src: Source, p: array<byte>, lo: nat, hi: nat) returns (n: nat, err: Option<IoError>)
    requires lo <= hi <= p.Length
    modifies src, p
    ensures n == Min(hi - lo, |old(src.input)|)
    ensures p[lo..lo + n] == old(src.input)[..n]
    ensures p[..lo] == old(p[..lo]) && p[hi..] == old(p[hi..])
    ensures src.input == old(src.input)[n..]
    ensures err == FullError(hi - lo, |old(src.input)|, src.fin)
  {
    n, err := 0, None;
    while lo + n < hi && err.None?
      invariant lo + n <= hi && n <= |old(src.input)|
      invariant p[lo..lo + n] == old(src.input)[..n] && src.input == old(src.input)[n..]
      invariant p[..lo] == old(p[..lo]) && p[hi..] == old(p[hi..])
      invariant err.Some? ==> n == |old(src.input)| && err.value == src.fin
      decreases hi - lo - n, err.None?
    {
      n, err := ReadMore(src, p, lo, hi, n, old(src.input));
    }
    if lo + n == hi {
      err := None;
    } else if 0 < n && err == Some(Eof) {
      err := Some(UnexpectedEof);
    }
  }

  /** The sending side: `sent` is everything the peer will see, in order. */
  class Sink {
    var sent: seq<byte>
    var failed: bool

    constructor ()
      ensures sent == [] && !failed
    {
      sent := [];
      failed := false;
    }

    /** The `io.Writer` contract: fewer bytes than given only together with an error. */
    method Write(b: seq<byte>) returns (n: nat, err: Option<IoError>)
      modifies this
      ensures n <= |b| && sent == old(sent) + b[..n]
      ensures err.None? ==> n == |b|
      ensures failed == (old(failed) || err.Some?)
    {
      n, err := |b|, None;
      if * {
        n :| 0 <= n <= |b|;
        err := Some(OtherError);
        failed := true;
      }
      sent := sent + b[..n];
    }

    /** A sink that may take only part of what it is offered without reporting it. */
    method WriteSome(b: seq<byte>) returns (n: nat, err: Option<IoError>)
      modifies this
      ensures n <= |b| && sent == old(sent) + b[..n]
      ensures err.None? && b != [] ==> 0 < n
      ensures failed == (old(failed) || err.Some?)
    {
      err := None;
      if * {
        err := Some(OtherError);
        failed := true;
      }
      n :| 0 <= n <= |b| && (err.None? && b != [] ==> 0 < n);
      sent := sent + b[..n];
    }
  }

  /** What a user of a sending half may do next: write some bytes, or copy everything a source holds by one
      `ReadFrom`. */
  datatype SendOp = WriteOf(bytes: seq<byte>) | CopyIn(bytes: seq<byte>, fin: IoError, coupled: bool)

  function Sent(ops: seq<SendOp>): seq<byte> {
    if ops == [] then [] else ops[0].bytes + Sent(ops[1..])
  }

  lemma {:induction false} SentTake(ops: seq<SendOp>, i: nat)
    requires i < |ops|
    ensures Sent(ops[..i + 1]) == Sent(ops[..i]) + ops[i].bytes
    ensures Sent(ops[..i]) <= Sent(ops)
  {
    if i == 0 {
      assert ops[..1] == [ops[0]] && ops[..0] == [];
    } else {
      assert ops[..i + 1][1..] == ops[1..][..i] && ops[..i][1..] == ops[1..][..i - 1];
      SentTake(ops[1..], i - 1);
      Assoc(ops[0].bytes, Sent(ops[1..][..i - 1]), ops[i].bytes);
    }
  }

  lemma SentNothing(ops: seq<SendOp>)
    ensures Sent(ops[..0]) == [] && (ops == [] ==> Sent(ops) == [])
  {
  }

  lemma SentPrefix(ops: seq<SendOp>, i: nat)
    requires i <= |ops|
    ensures Sent(ops[..i]) <= Sent(ops)
  {
    if i < |ops| {
      SentTake(ops, i);
    } else {
      assert ops[..i] == ops;
    }
  }
}

/** Octets, optional values and the big-endian length fields every framing in this project uses. */
module Bytes {

  type byte = x: int | 0 <= x < 256

  datatype Option<+T> = None | Some(value: T)

  function Min(a: nat, b: nat): nat {
    if a <= b then a else b
  }

  /** Conversion to `uint16`: high bits are dropped. */
  function U16(n: nat): nat {
    n % 0x1_0000
  }

  /** Two octets, most significant first, of a number truncated to 16 bits. */
  function BE16(n: nat): (b: seq<byte>)
    ensures |b| == 2
  {
    [U16(n) / 256, n % 256]
  }

  function FromBE16(b: seq<byte>): (n: nat)
    requires |b| == 2
    ensures n < 0x1_0000
  {
    var high: int := b[0];
    high * 256 + b[1]
  }

  /** Decoding a length field gives the length back exactly when it fits in 16 bits. */
  lemma BE16RoundTrip(n: nat)
    ensures FromBE16(BE16(n)) == U16(n)
    ensures FromBE16(BE16(n)) == n <==> n < 0x1_0000
  {
    assert n % 256 == U16(n) % 256;
  }

  lemma Assoc(x: seq<byte>, y: seq<byte>, z: seq<byte>)
    ensures x + (y + z) == (x + y) + z
  {
  }

  lemma PrefixCons(x: seq<byte>, y: seq<byte>, z: seq<byte>)
    requires y <= z
    ensures x + y <= x + z
  {
  }

  /** Concatenation of a list of byte strings. */
  function Flatten(parts: seq<seq<byte>>): seq<byte> {
    if parts == [] then [] else parts[0] + Flatten(parts[1..])
  }

  lemma {:induction false} FlattenAppend(xs: seq<seq<byte>>, ys: seq<seq<byte>>)
    ensures Flatten(xs + ys) == Flatten(xs) + Flatten(ys)
  {
    if xs == [] {
      assert xs + ys == ys;
    } else {
      assert (xs + ys)[1..] == xs[1..] + ys;
      FlattenAppend(xs[1..], ys);
    }
  }

  lemma FlattenSnoc(xs: seq<seq<byte>>, y: seq<byte>)
    ensures Flatten(xs + [y]) == Flatten(xs) + y
  {
    FlattenAppend(xs, [y]);
    assert Flatten([y]) == y + Flatten([]);
  }

  lemma FlattenTake(xs: seq<seq<byte>>, i: nat)
    requires i < |xs|
    ensures Flatten(xs[..i + 1]) == Flatten(xs[..i]) + xs[i]
  {
    assert xs[..i + 1] == xs[..i] + [xs[i]];
    FlattenSnoc(xs[..i], xs[i]);
  }

  lemma FlattenPrefix(xs: seq<seq<byte>>, i: nat)
    requires i <= |xs|
    ensures Flatten(xs[..i]) <= Flatten(xs)
  {
    assert xs == xs[..i] + xs[i..];
    FlattenAppend(xs[..i], xs[i..]);
  }

  /** Go's `copy(dst[at:], src)` for a source that fits. */
  method Blit(dst: array<byte>, at: nat, src: seq<byte>)
    requires at + |src| <= dst.Length
    modifies dst
    ensures dst[at..at + |src|] == src
    ensures dst[..at] == old(dst[..at])
    ensures dst[at + |src|..] == old(dst[at + |src|..])
  {
    for i := 0 to |src|
      invariant dst[at..at + i] == src[..i]
      invariant dst[..at] == old(dst[..at])
      invariant forall j :: at + i <= j < dst.Length ==> dst[j] == old(dst[j])
    {
      dst[at + i] := src[i];
    }
  }

  function Rotated(a: byte, k: nat): byte {
    var x: int := a;
    (x + k) % 256
  }

  function RotatedAll(p: seq<byte>, k: nat): seq<byte> {
    seq(|p|, i requires 0 <= i < |p| => Rotated(p[i], k))
  }
}

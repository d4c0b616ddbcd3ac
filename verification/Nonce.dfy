/** The implicit nonce counter of the AEAD stream: an unsigned little-endian integer bumped in place. */
module Nonce {
  import opened Bytes

  function Pow256(n: nat): (p: nat)
    ensures 0 < p
  {
    if n == 0 then 1 else 256 * Pow256(n - 1)
  }

  /** The number a little-endian byte string stands for. */
  function Value(b: seq<byte>): nat {
    if b == [] then 0
    else
      var low: int := b[0];
      low + 256 * Value(b[1..])
  }

  /** The nonce of the k-th sealed or opened message. */
  function At(k: nat, size: nat): (b: seq<byte>)
    ensures |b| == size
  {
    if size == 0 then [] else [k % 256] + At(k / 256, size - 1)
  }

  /** Carry propagation, from the least significant byte. */
  function Bump(b: seq<byte>): (r: seq<byte>)
    ensures |r| == |b|
  {
    if b == [] then []
    else if b[0] == 255 then [0] + Bump(b[1..])
    else [b[0] + 1] + b[1..]
  }

  lemma MulAway(m: int, d: int)
    requires 0 <= m
    ensures d >= 1 ==> m * d >= m
    ensures d <= -1 ==> m * d <= -m
  {
    if d >= 1 {
      assert m * d == m + m * (d - 1);
    } else if d <= -1 {
      assert m * d == -m + m * (d + 1);
    }
  }

  lemma ModUnique(x: int, m: int, q: int, r: int)
    requires 0 <= r < m && x == m * q + r
    ensures x % m == r
  {
    assert x == m * (x / m) + x % m;
    assert m * (x / m - q) == r - x % m;
    MulAway(m, x / m - q);
  }

  lemma {:induction false} ValueBound(b: seq<byte>)
    ensures Value(b) < Pow256(|b|)
  {
    if b != [] {
      ValueBound(b[1..]);
    }
  }

  lemma {:induction false} ValueInjective(a: seq<byte>, b: seq<byte>)
    requires |a| == |b| && Value(a) == Value(b)
    ensures a == b
  {
    if a != [] {
      var x: int, y: int := a[0], b[0];
      assert x == Value(a) % 256 && y == Value(b) % 256;
      ValueInjective(a[1..], b[1..]);
      assert a == [a[0]] + a[1..] && b == [b[0]] + b[1..];
    }
  }

  lemma {:induction false} BumpCarries(b: seq<byte>)
    ensures Value(Bump(b)) == if Value(b) + 1 == Pow256(|b|) then 0 else Value(b) + 1
  {
    if b != [] {
      BumpCarries(b[1..]);
      ValueBound(b[1..]);
      assert Bump(b)[1..] == if b[0] == 255 then Bump(b[1..]) else b[1..];
    }
  }

  /** `increment` is +1 modulo 256^len: it wraps around on overflow. */
  lemma BumpIsPlusOne(b: seq<byte>)
    ensures Value(Bump(b)) == (Value(b) + 1) % Pow256(|b|)
  {
    hide *;
    ValueBound(b);
    BumpCarries(b);
    var m, v := Pow256(|b|), Value(b);
    if v + 1 == m {
      ModUnique(m, m, 1, 0);
    } else {
      ModUnique(v + 1, m, 0, v + 1);
    }
  }

  lemma {:induction false} AtSuccessor(k: nat, size: nat)
    ensures Bump(At(k, size)) == At(k + 1, size)
  {
    if size > 0 {
      assert At(k, size)[1..] == At(k / 256, size - 1);
      if k % 256 == 255 {
        AtSuccessor(k / 256, size - 1);
        assert (k + 1) / 256 == k / 256 + 1;
      }
    }
  }

  lemma {:induction false} AtDigits(k: nat, size: nat) returns (q: nat)
    ensures k == Pow256(size) * q + Value(At(k, size))
  {
    if size == 0 {
      q := k;
    } else {
      q := AtDigits(k / 256, size - 1);
      var m := Pow256(size - 1);
      assert At(k, size)[1..] == At(k / 256, size - 1);
      assert 256 * (m * q) == (256 * m) * q;
    }
  }

  lemma AtValue(k: nat, size: nat)
    ensures Value(At(k, size)) == k % Pow256(size)
  {
    var q := AtDigits(k, size);
    ValueBound(At(k, size));
    ModUnique(k, Pow256(size), q, Value(At(k, size)));
  }

  /** Two messages share a nonce exactly when their numbers agree modulo 256^size. */
  lemma AtCollides(i: nat, j: nat, size: nat)
    ensures At(i, size) == At(j, size) <==> i % Pow256(size) == j % Pow256(size)
  {
    AtValue(i, size);
    AtValue(j, size);
    if i % Pow256(size) == j % Pow256(size) {
      ValueInjective(At(i, size), At(j, size));
    }
  }

  /** No nonce repeats within the first 256^size messages, and the very next one does. */
  lemma NoReuse(size: nat)
    ensures forall i: nat, j: nat :: i < j < Pow256(size) ==> At(i, size) != At(j, size)
    ensures At(Pow256(size), size) == At(0, size)
  {
    forall i: nat, j: nat | i < j < Pow256(size)
      ensures At(i, size) != At(j, size)
    {
      AtCollides(i, j, size);
      ModUnique(i, Pow256(size), 0, i);
      ModUnique(j, Pow256(size), 0, j);
    }
    ModUnique(Pow256(size), Pow256(size), 1, 0);
    ModUnique(0, Pow256(size), 0, 0);
    AtCollides(Pow256(size), 0, size);
  }

  /** Bytes of 255 become 0 and pass the carry on; the first other byte takes it. */
  lemma {:induction false} BumpShape(was: seq<byte>, now: seq<byte>, i: nat)
    requires i <= |was| == |now|
    requires forall j :: 0 <= j < i ==> was[j] == 255 && now[j] == 0
    requires i < |was| ==> was[i] < 255 && now[i] == was[i] + 1 && now[i + 1..] == was[i + 1..]
    ensures now == Bump(was)
    decreases i
  {
    if i > 0 {
      assert now[1..][i - 1..] == now[i..] && was[1..][i - 1..] == was[i..];
      assert i < |was| ==> now[1..][i..] == now[i + 1..] && was[1..][i..] == was[i + 1..];
      BumpShape(was[1..], now[1..], i - 1);
      assert now == [now[0]] + now[1..];
    } else if was != [] {
      assert now == [now[0]] + now[1..];
    }
  }

  /** `increment(b[:n])`, in place. */
  method Increment(b: array<byte>, n: nat)
    requires n <= b.Length
    modifies b
    ensures b[..n] == Bump(old(b[..n]))
    ensures b[n..] == old(b[n..])
  {
    hide Bump;
    for i := 0 to n
      invariant forall j :: 0 <= j < i ==> old(b[j]) == 255 && b[j] == 0
      invariant forall j :: i <= j < b.Length ==> b[j] == old(b[j])
    {
      b[i] := if b[i] == 255 then 0 else b[i] + 1;
      if b[i] != 0 {
        BumpShape(old(b[..n]), b[..n], i);
        return;
      }
    }
    BumpShape(old(b[..n]), b[..n], n);
  }
}

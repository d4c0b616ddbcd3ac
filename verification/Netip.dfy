/** IP addresses and prefixes, as far as the router looks at them. */
module Netip {
  import opened Bytes
  import opened Numbers

  /** The number a byte string spells, most significant byte first. */
  function Value(b: seq<byte>): nat {
    if b == [] then 0 else 256 * Value(b[..|b| - 1]) + b[|b| - 1]
  }

  /** The bytes in front count for 2^8 times as much for each byte behind them. */
  lemma {:induction false} ValueJoins(x: seq<byte>, y: seq<byte>)
    ensures Value(x + y) == Value(x) * Pow2(8 * |y|) + Value(y) && Value(y) < Pow2(8 * |y|)
  {
    if y == [] {
      assert x + y == x && Pow2(0) == 1;
    } else {
      var init, last: nat := y[..|y| - 1], y[|y| - 1];
      ValueJoins(x, init);
      assert (x + y)[..|x + y| - 1] == x + init;
      EightBits(|init|);
      assert 8 * |y| == 8 * |init| + 8;
      assert 256 * (Value(x) * Pow2(8 * |init|)) == Value(x) * (256 * Pow2(8 * |init|));
    }
  }

  lemma EightBits(n: nat)
    ensures Pow2(8 * n + 8) == 256 * Pow2(8 * n)
  {
    var k := 8 * n;
    assert Pow2(k + 2) == 2 * Pow2(k + 1);
    assert Pow2(k + 4) == 2 * Pow2(k + 3);
    assert Pow2(k + 6) == 2 * Pow2(k + 5);
    assert Pow2(k + 8) == 2 * Pow2(k + 7);
  }

  /** Byte strings of one length spell different numbers. */
  lemma {:induction false} ValueInjective(x: seq<byte>, y: seq<byte>)
    requires |x| == |y| && Value(x) == Value(y)
    ensures x == y
  {
    if x != [] {
      var n := |x| - 1;
      var a: nat, b: nat := x[n], y[n];
      assert Value(x[..n]) == Value(y[..n]) && a == b;
      ValueInjective(x[..n], y[..n]);
      assert x == x[..n] + [x[n]] && y == y[..n] + [y[n]];
    }
  }

  /** The number without its last bytes. */
  lemma ValueCut(b: seq<byte>, k: nat)
    requires k <= |b|
    ensures Value(b) / Pow2(8 * (|b| - k)) == Value(b[..k])
  {
    ValueJoins(b[..k], b[k..]);
    assert b == b[..k] + b[k..];
    Quotient(Value(b), Pow2(8 * (|b| - k)), Value(b[..k]), Value(b[k..]));
  }

  datatype Addr = Zero | V4(v: nat) | V6(v: nat, zoned: bool) {
    function BitLen(): nat {
      match this
      case Zero => 0
      case V4(_) => 32
      case V6(_, _) => 128
    }

    predicate Is4In6() {
      V6? && v / 0x1_0000_0000 == 0xFFFF
    }

    /** An IPv4-mapped IPv6 address becomes its IPv4 address, and loses its zone. */
    function Unmap(): Addr {
      if Is4In6() then V4(v % 0x1_0000_0000) else this
    }
  }

  function AddrFromSlice(b: seq<byte>): Option<Addr> {
    if |b| == 4 then Some(V4(Value(b)))
    else if |b| == 16 then Some(V6(Value(b), false))
    else None
  }

  datatype Prefix = Prefix(addr: Addr, bits: int) {
    /** `PrefixFrom` with a bit count that does not suit the address makes an invalid prefix. */
    predicate Valid() {
      !addr.Zero? && 0 <= bits <= addr.BitLen()
    }

    /** Same family, no zone, and the first `bits` bits agree. */
    predicate Contains(ip: Addr) {
      && Valid()
      && !(ip.V6? && ip.zoned)
      && ip.BitLen() == addr.BitLen()
      && ip.v / Pow2(addr.BitLen() - bits) == addr.v / Pow2(addr.BitLen() - bits)
    }
  }

  /** A prefix of whole bytes holds the addresses that begin with the same bytes. */
  lemma ContainsByBytes(base: seq<byte>, k: nat, ip: seq<byte>)
    requires |base| == |ip| && |ip| in {4, 16} && k <= |ip|
    ensures Prefix(AddrFromSlice(base).value, 8 * k).Contains(AddrFromSlice(ip).value) <==> ip[..k] == base[..k]
  {
    ValueCut(base, k);
    ValueCut(ip, k);
    if Value(ip[..k]) == Value(base[..k]) {
      ValueInjective(ip[..k], base[..k]);
    }
    hide Value, Pow2;
    assert |ip| == 4 ==> 32 - 8 * k == 8 * (|ip| - k);
    assert |ip| == 16 ==> 128 - 8 * k == 8 * (|ip| - k);
  }

  const MAPPED: seq<byte> := [0, 0, 0, 0, 0, 0, 0, 0, 0, 0, 255, 255]

  lemma MappedValue()
    ensures Value(MAPPED) == 0xFFFF && Pow2(32) == 0x1_0000_0000
  {
    var zeros := MAPPED[..10];
    Zeros(zeros);
    assert MAPPED[..11] == zeros + [255] && MAPPED == MAPPED[..11] + [255];
    assert (zeros + [255])[..10] == zeros;
    assert Value(MAPPED[..11]) == 255;
    EightBits(0);
    EightBits(1);
    EightBits(2);
    EightBits(3);
  }

  lemma {:induction false} Zeros(b: seq<byte>)
    requires forall i :: 0 <= i < |b| ==> b[i] == 0
    ensures Value(b) == 0
  {
    if b != [] {
      Zeros(b[..|b| - 1]);
    }
  }

  /** An address of 16 bytes is IPv4-mapped exactly if it is ten zeros, two bytes 255 and the IPv4 address. */
  lemma MappedExactly(b: seq<byte>)
    requires |b| == 16
    ensures var addr := AddrFromSlice(b).value;
            && (addr.Is4In6() <==> b[..12] == MAPPED)
            && addr.Unmap() == if b[..12] == MAPPED then AddrFromSlice(b[12..]).value else addr
  {
    MappedValue();
    ValueCut(b, 12);
    ValueJoins(b[..12], b[12..]);
    assert b == b[..12] + b[12..];
    if Value(b[..12]) == 0xFFFF {
      ValueInjective(b[..12], MAPPED);
    }
    hide Value, Pow2;
    assert Value(b) == Value(b[..12]) * 0x1_0000_0000 + Value(b[12..]);
  }
}

/** SOCKS5 addresses (section 5 of RFC 1928): the encoder and the three places that decode. */
module Socks5Addr {
  import opened Bytes
  import opened Transport

  const ATYP_IPV4: byte := 1
  const ATYP_DOMAIN: byte := 3
  const ATYP_IPV6: byte := 4
  const MAX_ADDR_LEN := 1 + 1 + 255 + 2

  /** `Addr.Valid`: long enough for its type; bytes beyond the address are allowed. */
  predicate Valid(a: seq<byte>) {
    if |a| < 1 + 1 + 2 then false
    else if a[0] == ATYP_DOMAIN then
      var n: int := a[1];
      1 + 1 + n + 2 <= |a|
    else if a[0] == ATYP_IPV4 then 1 + 4 + 2 <= |a|
    else if a[0] == ATYP_IPV6 then 1 + 16 + 2 <= |a|
    else false
  }

  /** `SplitAddr`: the address at the front of `b`. */
  function SplitAddr(b: seq<byte>): Option<seq<byte>> {
    if |b| < 1 then None
    else if b[0] == ATYP_DOMAIN then
      if |b| < 2 then None
      else
        var n: int := b[1];
        if |b| < 1 + 1 + n + 2 then None else Some(b[..1 + 1 + n + 2])
    else if b[0] == ATYP_IPV4 then
      if |b| < 1 + 4 + 2 then None else Some(b[..1 + 4 + 2])
    else if b[0] == ATYP_IPV6 then
      if |b| < 1 + 16 + 2 then None else Some(b[..1 + 16 + 2])
    else None
  }

  /** The two checks accept the same inputs. */
  lemma ValidIffSplit(a: seq<byte>)
    ensures Valid(a) <==> SplitAddr(a).Some?
  {
  }

  /** An address ends where it says it does: what follows plays no part. */
  lemma SplitIsLocal(b: seq<byte>, a: seq<byte>, more: seq<byte>)
    requires SplitAddr(b) == Some(a)
    ensures a <= b && 4 <= |a| <= MAX_ADDR_LEN && SplitAddr(a + more) == Some(a)
  {
    assert (a + more)[..|a|] == a;
  }

  /** An IP address; `NoIP` is the zero `netip.Addr`. */
  datatype IpAddr = V4(bytes: seq<byte>) | V6(bytes: seq<byte>) | NoIP

  predicate WellFormed(ip: IpAddr) {
    (ip.V4? && |ip.bytes| == 4) || (ip.V6? && |ip.bytes| == 16)
  }

  /** `SerializeAddr`: a domain name takes precedence over the address. */
  function SerializeAddr(domain: seq<byte>, ip: IpAddr, port: nat): Option<seq<byte>> {
    if domain != [] then
      if |domain| > 255 then None else Some([ATYP_DOMAIN, |domain|] + domain + BE16(port))
    else if ip.V4? then Some([ATYP_IPV4] + ip.bytes + BE16(port))
    else Some([ATYP_IPV6] + (if ip.NoIP? then [] else ip.bytes) + BE16(port))
  }

  /** What an address names: a domain of 1 to 255 bytes or an IP, and a port. */
  datatype Target = Domain(name: seq<byte>, port: nat) | Ip(ip: IpAddr, port: nat) {
    predicate Legal() {
      port < 0x1_0000 && if Domain? then 1 <= |name| <= 255 else WellFormed(ip)
    }

    function Encoded(): seq<byte>
      requires Legal()
    {
      if Domain? then SerializeAddr(name, NoIP, port).value else SerializeAddr([], ip, port).value
    }
  }

  /** The layouts of section 5 of RFC 1928, none longer than the buffer set aside for an address. */
  lemma EncodedLayout(t: Target)
    requires t.Legal()
    ensures t.Encoded() == match t
                           case Domain(name, port) => [3, |name|] + name + [port / 256, port % 256]
                           case Ip(V4(bytes), port) => [1] + bytes + [port / 256, port % 256]
                           case Ip(V6(bytes), port) => [4] + bytes + [port / 256, port % 256]
    ensures |t.Encoded()| <= 259 && MAX_ADDR_LEN == 259
  {
    assert BE16(t.port) == [t.port / 256, t.port % 256];
    hide BE16;
  }

  /** Splitting recovers an encoded target from the front of any byte string. */
  lemma SplitInvertsEncoded(t: Target, rest: seq<byte>)
    requires t.Legal()
    ensures SplitAddr(t.Encoded() + rest) == Some(t.Encoded())
  {
    var b := t.Encoded() + rest;
    assert b[..|t.Encoded()|] == t.Encoded();
  }

  /** Reading an encoded address field by field. */
  function Decoded(a: seq<byte>): Option<Target> {
    if !Valid(a) then None
    else if a[0] == ATYP_DOMAIN then
      var n: int := a[1];
      Some(Domain(a[2..2 + n], FromBE16(a[2 + n..2 + n + 2])))
    else if a[0] == ATYP_IPV4 then Some(Ip(V4(a[1..5]), FromBE16(a[5..7])))
    else Some(Ip(V6(a[1..17]), FromBE16(a[17..19])))
  }

  lemma DecodedInvertsEncoded(t: Target, rest: seq<byte>)
    requires t.Legal()
    ensures Decoded(t.Encoded() + rest) == Some(t)
  {
    var b := t.Encoded() + rest;
    BE16RoundTrip(t.port);
    match t
    case Domain(name, port) =>
      var n := |name|;
      assert b[2..2 + n] == name && b[2 + n..2 + n + 2] == BE16(port);
    case Ip(ip, port) =>
      var n := |ip.bytes|;
      assert b[1..1 + n] == ip.bytes && b[1 + n..1 + n + 2] == BE16(port);
  }

  /** The encoding is injective and prefix-free. */
  lemma EncodedPrefixFree(t: Target, u: Target)
    requires t.Legal() && u.Legal() && t.Encoded() <= u.Encoded()
    ensures t == u
  {
    var rest := u.Encoded()[|t.Encoded()|..];
    assert u.Encoded() == t.Encoded() + rest;
    assert u.Encoded() == u.Encoded() + [];
    DecodedInvertsEncoded(t, rest);
    DecodedInvertsEncoded(u, []);
  }

  datatype UdpAddr = UdpAddr(ip: seq<byte>, port: nat)

  /** `Addr.UDPAddr`: a copy of the IP and the port; domain names are not supported. */
  function ToUdpAddr(a: seq<byte>): Option<UdpAddr> {
    if !Valid(a) || a[0] == ATYP_DOMAIN then None
    else if a[0] == ATYP_IPV4 then Some(UdpAddr(a[1..5], FromBE16(a[5..7])))
    else Some(UdpAddr(a[1..17], FromBE16(a[17..19])))
  }

  /** It inverts the encoder on IPs and refuses domain names. */
  lemma ToUdpAddrInverts(t: Target, rest: seq<byte>)
    requires t.Legal()
    ensures ToUdpAddr(t.Encoded() + rest) == if t.Ip? then Some(UdpAddr(t.ip.bytes, t.port)) else None
  {
    DecodedInvertsEncoded(t, rest);
  }

  // Reading an address from a stream.

  datatype AddrError = AddrIo(error: IoError) | BadAddrType

  datatype StreamAddr = Read(addr: seq<byte>, rest: seq<byte>) | Unread(error: AddrError, rest: seq<byte>)

  /** A fixed number of bytes of the address after the `have` already in hand. */
  function Complete(head: seq<byte>, more: nat, input: seq<byte>, fin: IoError): StreamAddr {
    if |input| < more then Unread(AddrIo(FullError(more, |input|, fin).value), [])
    else Read(head + input[..more], input[more..])
  }

  function DomainOf(head: seq<byte>, input: seq<byte>, fin: IoError): StreamAddr {
    if |input| < 1 then Unread(AddrIo(fin), [])
    else
      var n: int := input[0];
      Complete(head + input[..1], n + 2, input[1..], fin)
  }

  /** `ReadAddr` as a function of the stream. */
  function AddrOf(input: seq<byte>, fin: IoError): StreamAddr {
    if |input| < 1 then Unread(AddrIo(fin), [])
    else
      var rest := input[1..];
      if input[0] == ATYP_DOMAIN then DomainOf(input[..1], rest, fin)
      else if input[0] == ATYP_IPV4 then Complete(input[..1], 4 + 2, rest, fin)
      else if input[0] == ATYP_IPV6 then Complete(input[..1], 16 + 2, rest, fin)
      else Unread(BadAddrType, rest)
  }

  /** The stream decoder agrees with `SplitAddr`: it succeeds on the same inputs, with the same address,
      and takes exactly that address off the stream. */
  lemma AddrOfAgreesWithSplit(input: seq<byte>, fin: IoError)
    ensures AddrOf(input, fin).Read? <==> SplitAddr(input).Some?
    ensures SplitAddr(input).Some? ==>
              AddrOf(input, fin) == Read(SplitAddr(input).value, input[|SplitAddr(input).value|..])
  {
    if SplitAddr(input).Some? {
      var a := SplitAddr(input).value;
      if input[0] == ATYP_DOMAIN {
        assert (input[..1] + input[1..][..1]) + input[1..][1..][..|a| - 2] == a;
        assert input[1..][1..][|a| - 2..] == input[|a|..];
      } else {
        assert input[..1] + input[1..][..|a| - 1] == a;
        assert input[1..][|a| - 1..] == input[|a|..];
      }
    }
  }

  datatype AddrResult = Ok(addr: seq<byte>) | Err(error: AddrError)

  /** `ReadAddr`: step by step into `b`, which must hold the longest address. */
  method ReadAddr(r: Source, b: array<byte>) returns (result: AddrResult)
    requires MAX_ADDR_LEN <= b.Length
    modifies r, b
    ensures r.input == AddrOf(old(r.input), r.fin).rest
    ensures result == Outcome(AddrOf(old(r.input), r.fin))
    ensures result.Ok? ==> |result.addr| <= MAX_ADDR_LEN && b[..|result.addr|] == result.addr
  {
    var n, err := ReadFull(r, b, 0, 1);
    if err.Some? {
      return Err(AddrIo(err.value));
    }
    assert b[..1] == b[0..0 + n] == old(r.input)[..1];
    if b[0] == ATYP_DOMAIN {
      result := ReadDomain(r, b);
    } else if b[0] == ATYP_IPV4 {
      result := Rest(r, b, 1, 4 + 2);
    } else if b[0] == ATYP_IPV6 {
      result := Rest(r, b, 1, 16 + 2);
    } else {
      result := Err(BadAddrType);
    }
  }

  function Outcome(s: StreamAddr): AddrResult {
    match s
    case Read(a, _) => Ok(a)
    case Unread(e, _) => Err(e)
  }

  method ReadDomain(r: Source, b: array<byte>) returns (result: AddrResult)
    requires MAX_ADDR_LEN <= b.Length
    modifies r, b
    ensures var d := DomainOf(old(b[..1]), old(r.input), r.fin);
            r.input == d.rest && result == Outcome(d)
    ensures result.Ok? ==> |result.addr| <= MAX_ADDR_LEN && b[..|result.addr|] == result.addr
  {
    var n, err := ReadFull(r, b, 1, 2);
    if err.Some? {
      return Err(AddrIo(err.value));
    }
    assert b[..2] == b[..1] + b[1..1 + n];
    var domainLength: int := b[1];
    result := Rest(r, b, 2, domainLength + 2);
  }

  method Rest(r: Source, b: array<byte>, at: nat, more: nat) returns (result: AddrResult)
    requires at + more <= b.Length
    modifies r, b
    ensures var c := Complete(old(b[..at]), more, old(r.input), r.fin);
            && r.input == c.rest
            && result == Outcome(c)
            && (result.Ok? ==> |result.addr| == at + more && b[..at + more] == result.addr)
  {
    var n, err := ReadFull(r, b, at, at + more);
    if err.Some? {
      return Err(AddrIo(err.value));
    }
    assert b[..at + more] == b[..at] + b[at..at + n];
    result := Ok(b[..at + more]);
  }
}

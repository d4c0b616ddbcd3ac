/** Datagrams relayed by a SOCKS5 proxy (section 7 of RFC 1928): the encapsulation, and the connection that
    strips it in place. */
module Socks5Udp {
  import opened Bytes
  import opened Socks5Addr

  datatype PacketError = TooShort | ReservedNotZero | Fragmented | NoAddress | NotAnIp

  datatype Packet = Packet(addr: seq<byte>, payload: seq<byte>) | Malformed(error: PacketError)

  const RESERVED: seq<byte> := [0, 0, 0]

  /** `EncodeUDPPacket` for an address that is present. */
  function EncodeUDPPacket(addr: seq<byte>, payload: seq<byte>): seq<byte> {
    RESERVED + addr + payload
  }

  /** `DecodeUDPPacket`. */
  function DecodeUDPPacket(packet: seq<byte>): Packet {
    if |packet| < 5 then Malformed(TooShort)
    else if packet[0] != 0 || packet[1] != 0 then Malformed(ReservedNotZero)
    else if packet[2] != 0 then Malformed(Fragmented)
    else
      match SplitAddr(packet[3..])
      case None => Malformed(NoAddress)
      case Some(addr) => Packet(addr, packet[3 + |addr|..])
  }

  /** A packet decodes to an address and a payload exactly when it is their encoding. */
  lemma DecodesExactly(packet: seq<byte>, addr: seq<byte>, payload: seq<byte>)
    ensures DecodeUDPPacket(packet) == Packet(addr, payload)
            <==> packet == EncodeUDPPacket(addr, payload) && SplitAddr(addr) == Some(addr)
  {
    hide SplitAddr;
    if DecodeUDPPacket(packet) == Packet(addr, payload) {
      SplitIsLocal(packet[3..], addr, []);
      assert addr + [] == addr;
      assert packet == RESERVED + packet[3..] && packet[3..] == addr + payload;
      Assoc(RESERVED, addr, payload);
    }
    if packet == EncodeUDPPacket(addr, payload) && SplitAddr(addr) == Some(addr) {
      SplitIsLocal(addr, addr, payload);
      assert packet[3..] == addr + payload;
      assert packet[3 + |addr|..] == payload;
    }
  }

  /** The datagram of any target and payload decodes to them, whatever bytes lie behind it. */
  lemma RoundTrip(t: Target, payload: seq<byte>, stale: seq<byte>)
    requires t.Legal()
    ensures DecodeUDPPacket(EncodeUDPPacket(t.Encoded(), payload) + stale) == Packet(t.Encoded(), payload + stale)
  {
    SplitInvertsEncoded(t, []);
    assert t.Encoded() + [] == t.Encoded();
    Assoc(RESERVED + t.Encoded(), payload, stale);
    DecodesExactly(EncodeUDPPacket(t.Encoded(), payload + stale), t.Encoded(), payload + stale);
  }

  // The packet connection.

  /** What `ReadFrom` reports. */
  datatype Received = Received(n: int, from: UdpAddr) | Failed(error: PacketError)

  /** `ReadFrom` as a function of the whole buffer after `n` bytes of a datagram have landed in it: the
      decoder is given all of it. */
  function Reported(buffer: seq<byte>, n: nat): Received {
    match DecodeUDPPacket(buffer)
    case Malformed(e) => Failed(e)
    case Packet(addr, _) =>
      match ToUdpAddr(addr)
      case None => Failed(NotAnIp)
      case Some(from) => Received(n - |addr| - 3, from)
  }

  /** The bytes of `datagram` that fit in a buffer: the rest is cut off. */
  function Landed(datagram: seq<byte>, capacity: nat): seq<byte> {
    datagram[..Min(|datagram|, capacity)]
  }

  /** Go's `copy(b, b[from:])`, whose source and destination overlap. */
  method ShiftDown(b: array<byte>, from: nat)
    requires from <= b.Length
    modifies b
    ensures b[..b.Length - from] == old(b[from..]) && b[b.Length - from..] == old(b[b.Length - from..])
  {
    for i := 0 to b.Length - from
      invariant forall j :: 0 <= j < i ==> b[j] == old(b[j + from])
      invariant forall j :: i <= j < b.Length ==> b[j] == old(b[j])
    {
      b[i] := b[i + from];
    }
  }

  /** `socksPacketConn.ReadFrom` when the transport delivers `datagram`. The address it returns is a copy
      taken before the payload moves over it. */
  method ReadFrom(b: array<byte>, datagram: seq<byte>) returns (result: Received)
    modifies b
    ensures var buffer := Landed(datagram, b.Length) + old(b[Min(|datagram|, b.Length)..]);
            && result == Reported(buffer, |Landed(datagram, b.Length)|)
            && (result.Failed? ==> b[..] == buffer)
            && (result.Received? ==>
                  var payload := DecodeUDPPacket(buffer).payload;
                  b[..|payload|] == payload)
  {
    var n := Min(|datagram|, b.Length);
    Blit(b, 0, datagram[..n]);
    ghost var buffer := Landed(datagram, b.Length) + old(b[n..]);
    assert b[..] == b[0..0 + n] + b[n..] == buffer;
    match DecodeUDPPacket(b[..])
    case Malformed(e) => result := Failed(e);
    case Packet(addr, payload) =>
      var udpAddr := ToUdpAddr(addr);
      if udpAddr.None? {
        return Failed(NotAnIp);
      }
      assert payload == b[3 + |addr|..];
      ShiftDown(b, 3 + |addr|);
      result := Received(n - |addr| - 3, udpAddr.value);
  }

  /** A datagram that is the encoding of an IP target is stripped to its payload, however stale the rest of
      the buffer, if it fits. */
  method Decapsulate(b: array<byte>, t: Target, payload: seq<byte>) returns (result: Received)
    requires t.Legal() && t.Ip? && |EncodeUDPPacket(t.Encoded(), payload)| <= b.Length
    modifies b
    ensures result == Received(|payload|, UdpAddr(t.ip.bytes, t.port)) && b[..|payload|] == payload
  {
    var datagram := EncodeUDPPacket(t.Encoded(), payload);
    ghost var stale := b[|datagram|..];
    RoundTrip(t, payload, stale);
    ToUdpAddrInverts(t, []);
    assert t.Encoded() + [] == t.Encoded();
    assert Landed(datagram, b.Length) == datagram;
    result := ReadFrom(b, datagram);
    assert payload == (payload + stale)[..|payload|] == b[..|payload + stale|][..|payload|];
  }

  /** What the caller wants: the answer depends on the datagram that arrived and not on stale bytes. */
  predicate Trustworthy(landed: seq<byte>, stale: seq<byte>) {
    Reported(landed + stale, |landed|) == Reported(landed, |landed|)
  }

  /** How many bytes the header of a datagram claims. */
  function HeaderLength(buffer: seq<byte>): Option<nat> {
    match DecodeUDPPacket(buffer)
    case Packet(addr, _) => Some(3 + |addr|)
    case Malformed(_) => None
  }

  /** How many bytes there must be before a decoder has an answer, as far as the first five bytes say. */
  function Needed(b: seq<byte>): nat {
    if |b| < 5 || b[0] != 0 || b[1] != 0 || b[2] != 0 then 5
    else if b[3] == ATYP_DOMAIN then 3 + 1 + 1 + b[4] as nat + 2
    else if b[3] == ATYP_IPV4 then 3 + 1 + 4 + 2
    else if b[3] == ATYP_IPV6 then 3 + 1 + 16 + 2
    else 5
  }

  /** For all bytes: the answer is that of the datagram alone exactly unless the datagram is cut short and the
      buffer is long enough for stale bytes to make up what is missing. */
  lemma TrustworthyExactly(landed: seq<byte>, stale: seq<byte>)
    ensures Trustworthy(landed, stale) <==> !(|landed| < Needed(landed) <= |landed + stale|)
    ensures Reported(landed, |landed|).Received? ==> Trustworthy(landed, stale)
  {
    var buffer := landed + stale;
    if |landed| >= 5 {
      var have, all := landed[3..], buffer[3..];
      assert all == have + stale;
      assert forall i :: 0 <= i < 5 ==> buffer[i] == landed[i];
      assert have[0] == all[0] == landed[3] && have[1] == all[1] == landed[4];
      if SplitAddr(have).Some? {
        SplitIsLocal(have, SplitAddr(have).value, []);
        SplitIsLocal(have, SplitAddr(have).value, have[|SplitAddr(have).value|..] + stale);
        assert all == SplitAddr(have).value + (have[|SplitAddr(have).value|..] + stale);
      }
    }
  }

  /** The buffer begins with the header of an IP datagram that goes beyond the `n` bytes received. */
  predicate CompletesAnIp(buffer: seq<byte>, n: nat) {
    && |buffer| >= 5 && buffer[0] == buffer[1] == buffer[2] == 0
    && ((buffer[3] == ATYP_IPV4 && n < 10 <= |buffer|) || (buffer[3] == ATYP_IPV6 && n < 22 <= |buffer|))
  }

  /** When stale bytes are taken for an address: then, and only then, a count is reported that is negative. */
  lemma NegativeCountExactly(landed: seq<byte>, stale: seq<byte>)
    ensures var result := Reported(landed + stale, |landed|);
            && (result.Received? && result.n < 0 <==> CompletesAnIp(landed + stale, |landed|))
            && (result.Received? && !Trustworthy(landed, stale) <==> CompletesAnIp(landed + stale, |landed|))
    ensures Reported(landed + stale, |landed|).Received? ==>
              (Trustworthy(landed, stale) <==> HeaderLength(landed + stale).value <= |landed|)
  {
    TrustworthyExactly(landed, stale);
  }

  /** The failing family is not empty: five stale bytes complete the address of a five-byte datagram, and
      the count comes out negative. */
  lemma StaleBytesCompleteAHeader()
    ensures var landed, stale := [0, 0, 0, ATYP_IPV4, 127], [0, 0, 1, 0, 53];
            && Reported(landed, |landed|) == Failed(NoAddress)
            && Reported(landed + stale, |landed|) == Received(-5, UdpAddr([127, 0, 0, 1], 53))
  {
    var landed: seq<byte>, stale: seq<byte> := [0, 0, 0, ATYP_IPV4, 127], [0, 0, 1, 0, 53];
    var addr := [ATYP_IPV4, 127, 0, 0, 1, 0, 53];
    assert addr[..7] == addr;
    assert landed + stale == EncodeUDPPacket(addr, []);
    DecodesExactly(landed + stale, addr, []);
    assert addr[1..5] == [127, 0, 0, 1] && addr[5..7] == [0, 53];
    assert landed[3..] == [ATYP_IPV4, 127];
  }
}

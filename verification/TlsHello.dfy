/** The ClientHello in which TLS obfuscation hides its first chunk, and a TLS parser to read it back. */
module TlsHello {
  import opened Bytes

  // The message, section by section, with the lengths the code writes.

  const CIPHER_SUITES: seq<byte> := [
    0xc0, 0x2c, 0xc0, 0x30, 0x00, 0x9f, 0xcc, 0xa9, 0xcc, 0xa8, 0xcc, 0xaa, 0xc0, 0x2b, 0xc0, 0x2f,
    0x00, 0x9e, 0xc0, 0x24, 0xc0, 0x28, 0x00, 0x6b, 0xc0, 0x23, 0xc0, 0x27, 0x00, 0x67, 0xc0, 0x0a,
    0xc0, 0x14, 0x00, 0x39, 0xc0, 0x09, 0xc0, 0x13, 0x00, 0x33, 0x00, 0x9d, 0x00, 0x9c, 0x00, 0x3d,
    0x00, 0x3c, 0x00, 0x35, 0x00, 0x2f, 0x00, 0xff]

  const POINT_FORMATS: seq<byte> := [0x03, 0x01, 0x00, 0x02]
  const GROUPS: seq<byte> := [0x00, 0x08, 0x00, 0x1d, 0x00, 0x17, 0x00, 0x19, 0x00, 0x18]
  const SIGNATURES: seq<byte> := [
    0x00, 0x1e, 0x06, 0x01, 0x06, 0x02, 0x06, 0x03, 0x05,
    0x01, 0x05, 0x02, 0x05, 0x03, 0x04, 0x01, 0x04, 0x02, 0x04, 0x03, 0x03, 0x01,
    0x03, 0x02, 0x03, 0x03, 0x02, 0x01, 0x02, 0x02, 0x02, 0x03]

  /** What the code takes from the clock and the random source. */
  datatype Entropy = Entropy(time: seq<byte>, random: seq<byte>, sessionID: seq<byte>) {
    predicate Sized() {
      |time| == 4 && |random| == 28 && |sessionID| == 32
    }
  }

  function RecordHeader(variable: nat): seq<byte> {
    [22] + [0x03, 0x01] + BE16(212 + variable)
  }

  function HandshakeHeader(variable: nat): seq<byte> {
    [1] + [0] + BE16(208 + variable)
  }

  function Randoms(e: Entropy): seq<byte> {
    [0x03, 0x03] + e.time + e.random + [32] + e.sessionID
  }

  function Suites(): seq<byte> {
    [0x00, 0x38] + CIPHER_SUITES + [0x01, 0x00]
  }

  function SessionTicket(data: seq<byte>): seq<byte> {
    [0x00, 0x23] + BE16(|data|) + data
  }

  function ServerNameBody(server: seq<byte>): seq<byte> {
    BE16(|server| + 3) + [0] + BE16(|server|) + server
  }

  function ServerName(server: seq<byte>): seq<byte> {
    [0x00, 0x00] + BE16(|server| + 5) + ServerNameBody(server)
  }

  function FixedExtensions(): seq<byte> {
    ([0x00, 0x0b, 0x00, 0x04] + POINT_FORMATS)
    + (([0x00, 0x0a, 0x00, 0x0a] + GROUPS)
       + (([0x00, 0x0d, 0x00, 0x20] + SIGNATURES)
          + ([0x00, 0x16, 0x00, 0x00] + [0x00, 0x17, 0x00, 0x00])))
  }

  function Extensions(data: seq<byte>, server: seq<byte>): seq<byte> {
    SessionTicket(data) + (ServerName(server) + FixedExtensions())
  }

  function Body(data: seq<byte>, server: seq<byte>, e: Entropy): seq<byte> {
    Randoms(e) + (Suites() + (BE16(79 + |data| + |server|) + Extensions(data, server)))
  }

  function ClientHello(data: seq<byte>, server: seq<byte>, e: Entropy): seq<byte> {
    RecordHeader(|data| + |server|) + (HandshakeHeader(|data| + |server|) + Body(data, server, e))
  }

  lemma Lengths(data: seq<byte>, server: seq<byte>, e: Entropy)
    requires e.Sized()
    ensures |Extensions(data, server)| == 79 + |data| + |server|
    ensures |Body(data, server, e)| == 208 + |data| + |server|
    ensures |ClientHello(data, server, e)| == 217 + |data| + |server|
  {
  }

  function Pairs(b: seq<byte>): seq<nat> {
    if |b| < 2 then [] else [FromBE16(b[..2])] + Pairs(b[2..])
  }

  lemma PairsCons(x: byte, y: byte, rest: seq<byte>)
    ensures var high: int := x; Pairs([x, y] + rest) == [high * 256 + y] + Pairs(rest)
  {
    var b := [x, y] + rest;
    assert b[..2] == [x, y] && b[2..] == rest;
  }

  /** The lists inside the fixed extensions have the lengths they begin with, and name the four groups, the three point
      formats, and fifteen signature schemes, hash by hash. */
  lemma ListsAreWhole()
    ensures POINT_FORMATS[0] == |POINT_FORMATS| - 1 && POINT_FORMATS[1..] == [1, 0, 2]
    ensures FromBE16(GROUPS[..2]) == |GROUPS| - 2 && Pairs(GROUPS[2..]) == [29, 23, 25, 24]
    ensures FromBE16(SIGNATURES[..2]) == |SIGNATURES| - 2
    ensures forall i :: 0 <= i < 15 ==> SIGNATURES[2 + 2 * i] == 6 - i / 3 && SIGNATURES[3 + 2 * i] == 1 + i % 3
    ensures |CIPHER_SUITES| == 56
  {
    var g := GROUPS[2..];
    assert g == [0, 29] + ([0, 23] + ([0, 25] + ([0, 24] + [])));
    PairsCons(0, 24, []);
    PairsCons(0, 25, [0, 24] + []);
    PairsCons(0, 23, [0, 25] + ([0, 24] + []));
    PairsCons(0, 29, [0, 23] + ([0, 25] + ([0, 24] + [])));
  }

  lemma Nested(a: seq<byte>, b: seq<byte>, c: seq<byte>, d: seq<byte>, e: seq<byte>, f: seq<byte>, g: seq<byte>,
               h: seq<byte>)
    ensures a + b + c + d + e + f + g + h == a + (b + (c + (d + (e + (f + (g + h))))))
  {
    Assoc(a + b + c + d + e + f, g, h);
    Assoc(a + b + c + d + e, f, g + h);
    Assoc(a + b + c + d, e, f + (g + h));
    Assoc(a + b + c, d, e + (f + (g + h)));
    Assoc(a + b, c, d + (e + (f + (g + h))));
    Assoc(a, b, c + (d + (e + (f + (g + h)))));
  }

  lemma Group3(s: seq<byte>, a: seq<byte>, b: seq<byte>, c: seq<byte>)
    ensures s + a + b + c == s + (a + b + c)
  {
    Assoc(s, a, b);
    Assoc(s, a + b, c);
  }

  lemma Group5(s: seq<byte>, a: seq<byte>, b: seq<byte>, c: seq<byte>, d: seq<byte>, e: seq<byte>)
    ensures s + a + b + c + d + e == s + (a + b + c + d + e)
  {
    Group3(s, a, b, c);
    Assoc(s, a + b + c, d);
    Assoc(s, a + b + c + d, e);
  }

  lemma GroupName(s: seq<byte>, a: seq<byte>, b: seq<byte>, c: seq<byte>, d: seq<byte>, e: seq<byte>, f: seq<byte>)
    ensures s + a + b + c + d + e + f == s + (a + b + (c + d + e + f))
  {
    Assoc(s, a, b);
    Assoc(s + (a + b), c, d);
    Assoc(s + (a + b), c + d, e);
    Assoc(s + (a + b), c + d + e, f);
    Assoc(s, a + b, c + d + e + f);
  }

  lemma GroupFixed(s: seq<byte>, a: seq<byte>, b: seq<byte>, c: seq<byte>, d: seq<byte>, e: seq<byte>)
    ensures s + a + b + c + d + e == s + (a + (b + (c + (d + e))))
  {
    Assoc(s + a + b + c, d, e);
    Assoc(s + a + b, c, d + e);
    Assoc(s + a, b, c + (d + e));
    Assoc(s, a, b + (c + (d + e)));
  }

  lemma AsBigEndian(n: nat)
    ensures [U16(n) / 256, U16(n) % 256] == BE16(n)
  {
    assert n % 256 == U16(n) % 256;
  }

  /** The last part of `makeClientHelloMsg`: the extensions. */
  method AppendExtensions(sofar: seq<byte>, data: seq<byte>, server: seq<byte>) returns (buf: seq<byte>)
    ensures buf == sofar + SessionTicket(data) + ServerName(server) + FixedExtensions()
  {
    hide BE16;
    buf := sofar + [0x00, 0x23];
    buf := buf + BE16(|data|);
    buf := buf + data;
    Group3(sofar, [0x00, 0x23], BE16(|data|), data);
    ghost var named := buf;

    buf := buf + [0x00, 0x00];
    buf := buf + BE16(|server| + 5);
    buf := buf + BE16(|server| + 3);
    buf := buf + [0];
    buf := buf + BE16(|server|);
    buf := buf + server;
    GroupName(named, [0x00, 0x00], BE16(|server| + 5), BE16(|server| + 3), [0], BE16(|server|), server);
    ghost var closed := buf;

    buf := buf + ([0x00, 0x0b, 0x00, 0x04] + POINT_FORMATS);
    buf := buf + ([0x00, 0x0a, 0x00, 0x0a] + GROUPS);
    buf := buf + ([0x00, 0x0d, 0x00, 0x20] + SIGNATURES);
    buf := buf + [0x00, 0x16, 0x00, 0x00];
    buf := buf + [0x00, 0x17, 0x00, 0x00];
    GroupFixed(closed, [0x00, 0x0b, 0x00, 0x04] + POINT_FORMATS, [0x00, 0x0a, 0x00, 0x0a] + GROUPS,
               [0x00, 0x0d, 0x00, 0x20] + SIGNATURES, [0x00, 0x16, 0x00, 0x00], [0x00, 0x17, 0x00, 0x00]);
  }

  /** Everything before the extensions: the two headers, the random values, the cipher suites. */
  method AppendHeaders(variable: nat, e: Entropy) returns (buf: seq<byte>)
    ensures buf == RecordHeader(variable) + HandshakeHeader(variable) + Randoms(e) + Suites()
  {
    hide BE16;
    // a handshake record that claims TLS 1.0
    buf := [22];
    buf := buf + [0x03, 0x01];
    var length := U16(212 + variable);
    buf := buf + [length / 256, length % 256];
    AsBigEndian(212 + variable);
    ghost var opening := buf;
    assert opening == RecordHeader(variable);

    // the hello itself, with the high byte of its length always 0
    buf := buf + [1];
    buf := buf + [0];
    buf := buf + BE16(208 + variable);
    Group3(opening, [1], [0], BE16(208 + variable));
    ghost var hello := buf;

    buf := buf + [0x03, 0x03];
    buf := buf + e.time;
    buf := buf + e.random;
    buf := buf + [32];
    buf := buf + e.sessionID;
    Group5(hello, [0x03, 0x03], e.time, e.random, [32], e.sessionID);
    ghost var entropy := buf;

    // no compression
    buf := buf + [0x00, 0x38];
    buf := buf + CIPHER_SUITES;
    buf := buf + [0x01, 0x00];
    Group3(entropy, [0x00, 0x38], CIPHER_SUITES, [0x01, 0x00]);
  }

  /** `makeClientHelloMsg`: the message grows front to back in one buffer. */
  method MakeClientHello(data: seq<byte>, server: seq<byte>, e: Entropy) returns (buf: seq<byte>)
    ensures buf == ClientHello(data, server, e)
  {
    hide BE16, RecordHeader, HandshakeHeader, Randoms, Suites, SessionTicket, ServerName, FixedExtensions;
    var variable := |data| + |server|;
    buf := AppendHeaders(variable, e);
    buf := buf + BE16(79 + variable);
    buf := AppendExtensions(buf, data, server);
    Nested(RecordHeader(variable), HandshakeHeader(variable), Randoms(e), Suites(), BE16(79 + variable),
           SessionTicket(data), ServerName(server), FixedExtensions());
  }

  // Reading it back: every length must be that of what follows.

  /** A vector with a two-byte length in front of a string: its body and what comes after it. */
  function ParseVec16(b: seq<byte>): (r: Option<(seq<byte>, seq<byte>)>)
    ensures r.Some? ==> |b| == 2 + |r.value.0| + |r.value.1|
  {
    if |b| < 2 then None
    else
      var n := FromBE16(b[..2]);
      if |b| < 2 + n then None else Some((b[2..2 + n], b[2 + n..]))
  }

  function ParseVec8(b: seq<byte>): Option<(seq<byte>, seq<byte>)> {
    if |b| < 1 then None
    else
      var n: int := b[0];
      if |b| < 1 + n then None else Some((b[1..1 + n], b[1 + n..]))
  }

  datatype Extension = Extension(kind: nat, body: seq<byte>)

  function ParseExtensions(b: seq<byte>): Option<seq<Extension>>
    decreases |b|
  {
    if b == [] then Some([])
    else if |b| < 2 then None
    else
      match ParseVec16(b[2..])
      case None => None
      case Some((body, rest)) =>
        match ParseExtensions(rest)
        case None => None
        case Some(more) => Some([Extension(FromBE16(b[..2]), body)] + more)
  }

  /** The host name of a server_name extension with a single entry. */
  function ParseServerName(body: seq<byte>): Option<seq<byte>> {
    match ParseVec16(body)
    case None => None
    case Some((list, rest)) =>
      if rest != [] || |list| < 1 || list[0] != 0 then None
      else
        match ParseVec16(list[1..])
        case None => None
        case Some((name, more)) => if more == [] then Some(name) else None
  }

  /** A hello with its extension block still unparsed. */
  datatype Hello = Hello(random: seq<byte>, sessionID: seq<byte>, suites: seq<byte>, compression: seq<byte>,
                         extensions: seq<byte>)

  function ParseCompressionAndExtensions(b: seq<byte>): Option<(seq<byte>, seq<byte>)> {
    match ParseVec8(b)
    case None => None
    case Some((compression, more)) =>
      match ParseVec16(more)
      case None => None
      case Some((exts, rest)) => if rest == [] then Some((compression, exts)) else None
  }

  function ParseHelloBody(b: seq<byte>): Option<Hello> {
    if |b| < 34 || b[..2] != [0x03, 0x03] then None
    else
      match ParseVec8(b[34..])
      case None => None
      case Some((sessionID, afterID)) =>
        match ParseVec16(afterID)
        case None => None
        case Some((suites, afterSuites)) =>
          match ParseCompressionAndExtensions(afterSuites)
          case None => None
          case Some((compression, exts)) => Some(Hello(b[2..34], sessionID, suites, compression, exts))
  }

  /** A handshake message that fills its record; its length has three bytes. */
  function ParseHandshake(record: seq<byte>): Option<Hello> {
    if |record| < 2 || record[..2] != [1, 0] then None
    else
      match ParseVec16(record[2..])
      case None => None
      case Some((body, more)) => if more == [] then ParseHelloBody(body) else None
  }

  /** A ClientHello at the front of a stream, in one TLS 1.0 handshake record, and the rest of it. */
  function ParseHello(b: seq<byte>): (r: Option<(Hello, seq<byte>)>)
    ensures r.Some? ==> |r.value.1| < |b|
  {
    if |b| < 3 || b[..3] != [22, 0x03, 0x01] then None
    else
      match ParseVec16(b[3..])
      case None => None
      case Some((record, rest)) =>
        match ParseHandshake(record)
        case None => None
        case Some(h) => Some((h, rest))
  }

  /** What the hello says, read field by field. */
  function Expected(data: seq<byte>, server: seq<byte>, e: Entropy): Hello {
    Hello(e.time + e.random, e.sessionID, CIPHER_SUITES, [0], Extensions(data, server))
  }

  const FIXED_LIST := [
    Extension(0x0b, POINT_FORMATS), Extension(0x0a, GROUPS), Extension(0x0d, SIGNATURES),
    Extension(0x16, []), Extension(0x17, [])]

  function ExpectedExtensions(data: seq<byte>, server: seq<byte>): seq<Extension> {
    [Extension(0x23, data)] + ([Extension(0, ServerNameBody(server))] + FIXED_LIST)
  }

  lemma Vec16Inverts(body: seq<byte>, rest: seq<byte>)
    requires |body| < 0x1_0000
    ensures ParseVec16(BE16(|body|) + (body + rest)) == Some((body, rest))
  {
    BE16RoundTrip(|body|);
    var b := BE16(|body|) + (body + rest);
    assert b[..2] == BE16(|body|) && b[2..2 + |body|] == body && b[2 + |body|..] == rest;
  }

  lemma ExtensionInverts(kind: seq<byte>, body: seq<byte>, rest: seq<byte>)
    requires |kind| == 2 && |body| < 0x1_0000
    ensures var more := ParseExtensions(rest);
            ParseExtensions((kind + BE16(|body|) + body) + rest)
            == if more.None? then None else Some([Extension(FromBE16(kind), body)] + more.value)
  {
    var b := (kind + BE16(|body|) + body) + rest;
    assert b[..2] == kind && b[2..] == BE16(|body|) + (body + rest);
    Vec16Inverts(body, rest);
  }

  lemma ServerNameInverts(server: seq<byte>)
    requires |server| + 5 < 0x1_0000
    ensures ParseServerName(ServerNameBody(server)) == Some(server)
  {
    var list := [0] + BE16(|server|) + server;
    assert ServerNameBody(server) == BE16(|list|) + (list + []);
    Vec16Inverts(list, []);
    assert list[1..] == BE16(|server|) + (server + []);
    Vec16Inverts(server, []);
  }

  lemma ConsInverts(kind: nat, header: seq<byte>, body: seq<byte>, rest: seq<byte>, list: seq<Extension>)
    requires kind < 0x1_0000 && |body| < 0x1_0000 && header == BE16(kind) + BE16(|body|)
    requires ParseExtensions(rest) == Some(list)
    ensures ParseExtensions((header + body) + rest) == Some([Extension(kind, body)] + list)
  {
    BE16RoundTrip(kind);
    ExtensionInverts(BE16(kind), body, rest);
  }

  lemma EmptyInverts(kind: nat, header: seq<byte>, rest: seq<byte>, list: seq<Extension>)
    requires kind < 0x1_0000 && header == BE16(kind) + BE16(0) && ParseExtensions(rest) == Some(list)
    ensures ParseExtensions(header + rest) == Some([Extension(kind, [])] + list)
  {
    hide ParseExtensions, BE16;
    ConsInverts(kind, header, [], rest, list);
    assert header + [] == header;
  }

  lemma Tags()
    ensures BE16(0x16) + BE16(0) == [0x00, 0x16, 0x00, 0x00] && BE16(0x17) + BE16(0) == [0x00, 0x17, 0x00, 0x00]
    ensures BE16(0x0b) + BE16(4) == [0x00, 0x0b, 0x00, 0x04] && BE16(0x0a) + BE16(10) == [0x00, 0x0a, 0x00, 0x0a]
    ensures BE16(0x0d) + BE16(32) == [0x00, 0x0d, 0x00, 0x20]
  {
  }

  lemma NoneLeft()
    ensures ParseExtensions([]) == Some([])
  {
  }

  lemma LastTwoInvert()
    ensures ParseExtensions([0x00, 0x16, 0x00, 0x00] + [0x00, 0x17, 0x00, 0x00])
            == Some([Extension(0x16, []), Extension(0x17, [])])
  {
    hide ParseExtensions, BE16;
    NoneLeft();
    Tags();
    var x17 := [0x00, 0x17, 0x00, 0x00];
    EmptyInverts(0x17, x17, [], []);
    assert x17 + [] == x17 && [Extension(0x17, [])] + [] == [Extension(0x17, [])];
    EmptyInverts(0x16, [0x00, 0x16, 0x00, 0x00], x17, [Extension(0x17, [])]);
    assert [Extension(0x16, [])] + [Extension(0x17, [])] == [Extension(0x16, []), Extension(0x17, [])];
  }

  lemma ThreeInvert(k1: nat, h1: seq<byte>, b1: seq<byte>, k2: nat, h2: seq<byte>, b2: seq<byte>,
                    k3: nat, h3: seq<byte>, b3: seq<byte>, rest: seq<byte>, list: seq<Extension>)
    requires k1 < 0x1_0000 && |b1| < 0x1_0000 && h1 == BE16(k1) + BE16(|b1|)
    requires k2 < 0x1_0000 && |b2| < 0x1_0000 && h2 == BE16(k2) + BE16(|b2|)
    requires k3 < 0x1_0000 && |b3| < 0x1_0000 && h3 == BE16(k3) + BE16(|b3|)
    requires ParseExtensions(rest) == Some(list)
    ensures ParseExtensions((h1 + b1) + ((h2 + b2) + ((h3 + b3) + rest)))
            == Some([Extension(k1, b1)] + ([Extension(k2, b2)] + ([Extension(k3, b3)] + list)))
  {
    ConsInverts(k3, h3, b3, rest, list);
    ConsInverts(k2, h2, b2, (h3 + b3) + rest, [Extension(k3, b3)] + list);
    ConsInverts(k1, h1, b1, (h2 + b2) + ((h3 + b3) + rest), [Extension(k2, b2)] + ([Extension(k3, b3)] + list));
  }

  lemma FixedInverts()
    ensures ParseExtensions(FixedExtensions()) == Some(FIXED_LIST)
  {
    hide ParseExtensions, BE16;
    var l16 := [Extension(0x16, []), Extension(0x17, [])];
    LastTwoInvert();
    Tags();
    ThreeInvert(0x0b, [0x00, 0x0b, 0x00, 0x04], POINT_FORMATS, 0x0a, [0x00, 0x0a, 0x00, 0x0a], GROUPS,
                0x0d, [0x00, 0x0d, 0x00, 0x20], SIGNATURES, [0x00, 0x16, 0x00, 0x00] + [0x00, 0x17, 0x00, 0x00], l16);
    assert [Extension(0x0b, POINT_FORMATS)] + ([Extension(0x0a, GROUPS)] + ([Extension(0x0d, SIGNATURES)] + l16))
        == FIXED_LIST;
  }

  lemma NameInverts(server: seq<byte>, rest: seq<byte>, list: seq<Extension>)
    requires |server| + 5 < 0x1_0000 && ParseExtensions(rest) == Some(list)
    ensures ParseExtensions(ServerName(server) + rest) == Some([Extension(0, ServerNameBody(server))] + list)
  {
    ConsInverts(0, [0x00, 0x00] + BE16(|server| + 5), ServerNameBody(server), rest, list);
  }

  lemma TicketInverts(data: seq<byte>, rest: seq<byte>, list: seq<Extension>)
    requires |data| < 0x1_0000 && ParseExtensions(rest) == Some(list)
    ensures ParseExtensions(SessionTicket(data) + rest) == Some([Extension(0x23, data)] + list)
  {
    ConsInverts(0x23, [0x00, 0x23] + BE16(|data|), data, rest, list);
  }

  /** The extension block is a list of extensions, with the data as session ticket and the server's name
      as the name. */
  lemma ExtensionsInvert(data: seq<byte>, server: seq<byte>)
    requires 79 + |data| + |server| < 0x1_0000
    ensures ParseExtensions(Extensions(data, server)) == Some(ExpectedExtensions(data, server))
    ensures ParseServerName(ServerNameBody(server)) == Some(server)
  {
    FixedInverts();
    NameInverts(server, FixedExtensions(), FIXED_LIST);
    TicketInverts(data, ServerName(server) + FixedExtensions(), [Extension(0, ServerNameBody(server))] + FIXED_LIST);
    ServerNameInverts(server);
  }

  lemma TailInverts(exts: seq<byte>)
    requires |exts| < 0x1_0000
    ensures ParseCompressionAndExtensions([0x01, 0x00] + (BE16(|exts|) + exts)) == Some(([0], exts))
  {
    var b := [0x01, 0x00] + (BE16(|exts|) + exts);
    assert b[1..2] == [0] && b[2..] == BE16(|exts|) + (exts + []);
    Vec16Inverts(exts, []);
  }

  lemma SuitesInvert(tail: seq<byte>)
    ensures ParseVec16(Suites() + tail) == Some((CIPHER_SUITES, [0x01, 0x00] + tail))
  {
    var more := [0x01, 0x00] + tail;
    assert [0x00, 0x38] == BE16(|CIPHER_SUITES|);
    Vec16Inverts(CIPHER_SUITES, more);
    Assoc(BE16(|CIPHER_SUITES|) + CIPHER_SUITES, [0x01, 0x00], tail);
    Assoc(BE16(|CIPHER_SUITES|), CIPHER_SUITES, more);
  }

  lemma BodyInverts(data: seq<byte>, server: seq<byte>, e: Entropy)
    requires e.Sized() && 79 + |data| + |server| < 0x1_0000
    ensures ParseHelloBody(Body(data, server, e)) == Some(Expected(data, server, e))
  {
    var exts := Extensions(data, server);
    var tail := BE16(|exts|) + exts;
    Lengths(data, server, e);
    TailInverts(exts);
    SuitesInvert(tail);
    RandomsInvert(e, Suites() + tail);
  }

  lemma RandomsInvert(e: Entropy, rest: seq<byte>)
    requires e.Sized()
    ensures var b := Randoms(e) + rest;
            |b| >= 34 && b[..2] == [0x03, 0x03] && b[2..34] == e.time + e.random
            && ParseVec8(b[34..]) == Some((e.sessionID, rest))
  {
    var b := Randoms(e) + rest;
    assert b[34..] == [32] + e.sessionID + rest;
    assert b[34..][1..33] == e.sessionID && b[34..][33..] == rest;
  }

  lemma HandshakeInverts(body: seq<byte>)
    requires |body| < 0x1_0000
    ensures ParseHandshake([1, 0] + BE16(|body|) + body) == ParseHelloBody(body)
  {
    var record := [1, 0] + BE16(|body|) + body;
    assert record[..2] == [1, 0] && record[2..] == BE16(|body|) + (body + []);
    Vec16Inverts(body, []);
  }

  lemma Headers(variable: nat)
    ensures RecordHeader(variable) == [22, 0x03, 0x01] + BE16(212 + variable)
    ensures HandshakeHeader(variable) == [1, 0] + BE16(208 + variable)
  {
  }

  /** Every nested length of the hello is that of the bytes that follow it. */
  lemma HelloInverts(data: seq<byte>, server: seq<byte>, e: Entropy, rest: seq<byte>)
    requires e.Sized() && 212 + |data| + |server| < 0x1_0000
    ensures ParseHello(ClientHello(data, server, e) + rest) == Some((Expected(data, server, e), rest))
  {
    hide ParseHello, ParseHandshake, ParseHelloBody, HandshakeHeader, RecordHeader, Body, Extensions, Expected, BE16;
    var variable, body := |data| + |server|, Body(data, server, e);
    Lengths(data, server, e);
    BodyInverts(data, server, e);
    HandshakeInverts(body);
    Headers(variable);
    RecordInverts(HandshakeHeader(variable) + body, rest, Expected(data, server, e));
  }

  lemma RecordInverts(record: seq<byte>, rest: seq<byte>, h: Hello)
    requires |record| < 0x1_0000 && ParseHandshake(record) == Some(h)
    ensures ParseHello(([22, 0x03, 0x01] + BE16(|record|) + record) + rest) == Some((h, rest))
  {
    var b := ([22, 0x03, 0x01] + BE16(|record|) + record) + rest;
    assert b[..3] == [22, 0x03, 0x01] && b[3..] == BE16(|record|) + (record + rest);
    Vec16Inverts(record, rest);
  }

  /** A record whose length does not fit is cut short by its reader. */
  lemma TooLongIsCut(tail: seq<byte>, h: Hello)
    requires |tail| >= 0x1_0000
    ensures ParseHello([22, 0x03, 0x01] + BE16(|tail|) + tail) != Some((h, []))
  {
    hide ParseHandshake, BE16;
    var b := [22, 0x03, 0x01] + BE16(|tail|) + tail;
    assert b[3..] == BE16(|tail|) + tail;
    assert b[3..][..2] == BE16(|tail|);
    BE16RoundTrip(|tail|);
  }

  /** The hello is well formed exactly when its record length fits in 16 bits. */
  lemma HelloExact(data: seq<byte>, server: seq<byte>, e: Entropy)
    requires e.Sized()
    ensures ParseHello(ClientHello(data, server, e)) == Some((Expected(data, server, e), []))
            <==> 212 + |data| + |server| < 0x1_0000
  {
    hide ParseHello, HandshakeHeader, RecordHeader, Body, Extensions, Expected, BE16;
    var variable, b := |data| + |server|, ClientHello(data, server, e);
    Lengths(data, server, e);
    Headers(variable);
    if 212 + variable < 0x1_0000 {
      HelloInverts(data, server, e, []);
      assert b + [] == b;
    } else {
      TooLongIsCut(HandshakeHeader(variable) + Body(data, server, e), Expected(data, server, e));
    }
  }
}

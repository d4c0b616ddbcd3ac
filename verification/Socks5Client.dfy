/** The SOCKS5 client handshake (sections 3 to 6 of RFC 1928, section 2 of RFC 1929) against a server that
    may send anything. */
module Socks5Client {
  import opened Bytes
  import opened Transport
  import opened Socks5Addr

  const VERSION: byte := 5
  const METHOD_NO_AUTH: byte := 0
  const METHOD_USER_PASS: byte := 2
  const MAX_AUTH_LEN := 255

  datatype User = User(name: seq<byte>, password: seq<byte>)

  datatype HandshakeError =
    | InvalidAddress | VersionMismatch | AuthRequired | AuthEmpty | AuthTooLong | AuthRejected
    | UnsupportedMethod | Refused(reply: byte) | Address(error: AddrError) | ReadFailed(io: IoError)
    | WriteFailed(io: IoError)

  datatype Result = Bound(addr: seq<byte>) | Failure(error: HandshakeError)

  /** The end of a handshake: its result, what the client sent, and what it left unread. */
  datatype Ending = Ending(result: Result, sent: seq<byte>, rest: seq<byte>)

  function Greeting(user: Option<User>): seq<byte> {
    [VERSION, 1, if user.Some? then METHOD_USER_PASS else METHOD_NO_AUTH]
  }

  function AuthMessage(u: User): seq<byte>
    requires |u.name| <= 255 && |u.password| <= 255
  {
    [1] + [|u.name|] + u.name + [|u.password|] + u.password
  }

  function Request(command: byte, addr: seq<byte>): seq<byte> {
    [VERSION] + [command] + [0] + addr
  }

  predicate Usable(u: User) {
    1 <= |u.name| <= MAX_AUTH_LEN && 1 <= |u.password| <= MAX_AUTH_LEN
  }

  /** The request phase: `sent` is what went out before, `input` what the server has yet to say. */
  function Asking(sent: seq<byte>, command: byte, addr: seq<byte>, input: seq<byte>, fin: IoError): Ending {
    var out := sent + Request(command, addr);
    if |input| < 3 then Ending(Failure(ReadFailed(FullError(3, |input|, fin).value)), out, [])
    else if input[1] != 0 then Ending(Failure(Refused(input[1])), out, input[3..])
    else
      match AddrOf(input[3..], fin)
      case Read(a, rest) => Ending(Bound(a), out, rest)
      case Unread(e, rest) => Ending(Failure(Address(e)), out, rest)
  }

  /** The authentication phase, after the server has chosen method 2. */
  function Authenticating(user: Option<User>, command: byte, addr: seq<byte>, input: seq<byte>, fin: IoError): Ending {
    var out := Greeting(user);
    if user.None? then Ending(Failure(AuthRequired), out, input)
    else if |user.value.name| == 0 || |user.value.password| == 0 then Ending(Failure(AuthEmpty), out, input)
    else if !Usable(user.value) then Ending(Failure(AuthTooLong), out, input)
    else
      var sent := out + AuthMessage(user.value);
      if |input| < 2 then Ending(Failure(ReadFailed(FullError(2, |input|, fin).value)), sent, [])
      else if input[1] != 0 then Ending(Failure(AuthRejected), sent, input[2..])
      else Asking(sent, command, addr, input[2..], fin)
  }

  /** The whole handshake as a function of the server's byte stream. */
  function Handshake(addr: seq<byte>, command: byte, user: Option<User>, input: seq<byte>, fin: IoError): Ending {
    if !Valid(addr) then Ending(Failure(InvalidAddress), [], input)
    else if |input| < 2 then
      Ending(Failure(ReadFailed(FullError(2, |input|, fin).value)), Greeting(user), [])
    else if input[0] != VERSION then Ending(Failure(VersionMismatch), Greeting(user), input[2..])
    else if input[1] == METHOD_USER_PASS then Authenticating(user, command, addr, input[2..], fin)
    else if input[1] != METHOD_NO_AUTH then Ending(Failure(UnsupportedMethod), Greeting(user), input[2..])
    else Asking(Greeting(user), command, addr, input[2..], fin)
  }

  /** What a server says to let the client through: `rest` is the first byte of tunnel data and on. Bytes
      the client does not look at are free. */
  ghost predicate LetsThrough(input: seq<byte>, user: Option<User>, bound: seq<byte>, rest: seq<byte>) {
    && SplitAddr(bound) == Some(bound)
    && ((exists any1: byte, any2: byte ::
           input == [5, 0] + ([any1, 0, any2] + (bound + rest)))
        || (user.Some? && Usable(user.value)
            && exists any0: byte, any1: byte, any2: byte ::
                 input == [5, 2] + ([any0, 0] + ([any1, 0, any2] + (bound + rest)))))
  }

  // The server's side, as sections 3 and 4 of RFC 1928 and section 2 of RFC 1929 have it read what a client says.

  datatype Heard<T> = Heard(what: T, rest: seq<byte>) | Nonsense

  function Length(b: byte): nat {
    b
  }

  /** VER, NMETHODS, METHODS */
  function HearGreeting(b: seq<byte>): Heard<seq<byte>> {
    if |b| < 2 || b[0] != 5 || |b| < 2 + Length(b[1]) then Nonsense
    else Heard(b[2..2 + Length(b[1])], b[2 + Length(b[1])..])
  }

  /** VER, ULEN, UNAME, PLEN, PASSWD */
  function HearUser(b: seq<byte>): Heard<User> {
    if |b| < 2 || b[0] != 1 || |b| < 3 + Length(b[1]) then Nonsense
    else
      var name, more := b[2..2 + Length(b[1])], b[2 + Length(b[1])..];
      if |more| < 1 + Length(more[0]) then Nonsense
      else Heard(User(name, more[1..1 + Length(more[0])]), more[1 + Length(more[0])..])
  }

  /** VER, CMD, RSV, and the address */
  function HearRequest(b: seq<byte>): Heard<(byte, seq<byte>)> {
    if |b| < 4 || b[0] != 5 || b[2] != 0 then Nonsense
    else
      match SplitAddr(b[3..])
      case None => Nonsense
      case Some(addr) => Heard((b[1], addr), b[3 + |addr|..])
  }

  datatype Session = Session(methods: seq<byte>, user: Option<User>, command: byte, addr: seq<byte>)

  /** All that a server hears which has chosen a method. */
  function HearAll(b: seq<byte>, chosen: byte): Heard<Session> {
    match HearGreeting(b)
    case Nonsense => Nonsense
    case Heard(methods, more) =>
      var user := if chosen == 2 then HearUser(more) else Nonsense;
      if chosen == 2 && user.Nonsense? then Nonsense
      else
        match HearRequest(if chosen == 2 then user.rest else more)
        case Nonsense => Nonsense
        case Heard(request, rest) =>
          Heard(Session(methods, if chosen == 2 then Some(user.what) else None, request.0, request.1), rest)
  }

  lemma GreetingIsHeard(user: Option<User>, rest: seq<byte>)
    ensures HearGreeting(Greeting(user) + rest) == Heard([if user.Some? then 2 else 0], rest)
  {
    var b := Greeting(user) + rest;
    assert b[2..3] == [b[2]] && b[3..] == rest;
  }

  lemma UserIsHeard(u: User, rest: seq<byte>)
    requires Usable(u)
    ensures HearUser(AuthMessage(u) + rest) == Heard(u, rest)
  {
    var b, n := AuthMessage(u) + rest, |u.name|;
    assert b[1] == n && b[2..2 + n] == u.name;
    var more := b[2 + n..];
    assert more == [|u.password|] + u.password + rest;
    assert more[1..1 + |u.password|] == u.password && more[1 + |u.password|..] == rest;
  }

  lemma RequestIsHeard(command: byte, addr: seq<byte>, rest: seq<byte>)
    requires Valid(addr)
    ensures var front := Front(addr);
            HearRequest(Request(command, addr) + rest) == Heard((command, front), addr[|front|..] + rest)
  {
    var b, front := Request(command, addr) + rest, Front(addr);
    SplitIsLocal(addr, front, addr[|front|..] + rest);
    assert b[3..] == addr + rest == front + (addr[|front|..] + rest);
    assert b[3 + |front|..] == addr[|front|..] + rest;
  }

  /** The address itself, without bytes that may follow it. */
  function Front(addr: seq<byte>): (a: seq<byte>)
    requires Valid(addr)
    ensures SplitAddr(addr) == Some(a) && a <= addr
  {
    ValidIffSplit(addr);
    SplitIsLocal(addr, SplitAddr(addr).value, []);
    SplitAddr(addr).value
  }

  /** What the client is to tell a server that chooses a method, and bytes that may follow the address. */
  function Told(addr: seq<byte>, command: byte, user: Option<User>, chosen: byte): Heard<Session>
    requires Valid(addr)
  {
    var front := Front(addr);
    Heard(Session([if user.Some? then 2 else 0], if chosen == 2 then user else None, command, front),
          addr[|front|..])
  }

  /** A client that is let through has told the server, which chose the method of its second byte, exactly what it was
      to tell: one method to choose from, its credentials if they were asked for, command and address. */
  lemma TranscriptIsHeard(input: seq<byte>, addr: seq<byte>, command: byte, user: Option<User>)
    requires Valid(addr) && |input| >= 2
    requires input[1] == 2 ==> user.Some? && Usable(user.value)
    ensures HearAll(Transcript(input, addr, command, user), input[1])
            == Told(addr, command, user, input[1])
  {
    hide Request, AuthMessage, Greeting, HearGreeting, HearUser, HearRequest, SplitAddr, Front;
    RequestIsHeard(command, addr, []);
    var request := Request(command, addr);
    assert request + [] == request && addr[|Front(addr)|..] + [] == addr[|Front(addr)|..];
    if input[1] == 2 {
      UserIsHeard(user.value, request);
      Assoc(Greeting(user), AuthMessage(user.value), request);
      GreetingIsHeard(user, AuthMessage(user.value) + request);
    } else {
      GreetingIsHeard(user, request);
    }
  }

  /** What a successful client has sent. */
  function Transcript(input: seq<byte>, addr: seq<byte>, command: byte, user: Option<User>): seq<byte> {
    if |input| >= 2 && input[1] == METHOD_USER_PASS && user.Some? && Usable(user.value)
    then Greeting(user) + AuthMessage(user.value) + Request(command, addr)
    else Greeting(user) + Request(command, addr)
  }

  lemma AskingSucceeds(sent: seq<byte>, command: byte, addr: seq<byte>, any1: byte, any2: byte,
                       bound: seq<byte>, rest: seq<byte>, fin: IoError)
    requires SplitAddr(bound) == Some(bound)
    ensures Asking(sent, command, addr, [any1, 0, any2] + (bound + rest), fin)
            == Ending(Bound(bound), sent + Request(command, addr), rest)
  {
    var tail := bound + rest;
    assert ([any1, 0, any2] + tail)[3..] == tail;
    SplitIsLocal(bound, bound, rest);
    AddrOfAgreesWithSplit(tail, fin);
    assert tail[|bound|..] == rest;
  }

  lemma AskingSucceededOnly(sent: seq<byte>, command: byte, addr: seq<byte>, input: seq<byte>, fin: IoError)
    returns (any1: byte, any2: byte, bound: seq<byte>, rest: seq<byte>)
    requires Asking(sent, command, addr, input, fin).result.Bound?
    ensures SplitAddr(bound) == Some(bound) && input == [any1, 0, any2] + (bound + rest)
    ensures Asking(sent, command, addr, input, fin) == Ending(Bound(bound), sent + Request(command, addr), rest)
  {
    any1, any2 := input[0], input[2];
    AddrOfAgreesWithSplit(input[3..], fin);
    bound := SplitAddr(input[3..]).value;
    rest := input[3..][|bound|..];
    SplitIsLocal(input[3..], bound, []);
    assert bound + [] == bound;
    assert input[3..] == bound + rest;
    assert input == [any1, 0, any2] + input[3..];
  }

  /** The client succeeds exactly on the conversations that let it through. It has then sent the greeting,
      the credentials if and only if the server chose method 2, and the request; and it has read exactly
      through the bound port, leaving tunnel data untouched. */
  lemma SucceedsExactly(addr: seq<byte>, command: byte, user: Option<User>, input: seq<byte>, fin: IoError)
    requires Valid(addr)
    ensures var e := Handshake(addr, command, user, input, fin);
            && (e.result.Bound? ==>
                  LetsThrough(input, user, e.result.addr, e.rest) && e.sent == Transcript(input, addr, command, user))
            && (forall bound, rest :: LetsThrough(input, user, bound, rest) ==>
                  e == Ending(Bound(bound), Transcript(input, addr, command, user), rest))
            && (e.result.Bound? ==> |input| >= 2 && HearAll(e.sent, input[1]) == Told(addr, command, user, input[1]))
  {
    hide Asking, Authenticating, Transcript, SplitAddr, HearAll, Valid, Told;
    var e := Handshake(addr, command, user, input, fin);
    if e.result.Bound? {
      SuccessOnly(addr, command, user, input, fin);
      MethodChosen(input, user, e.result.addr, e.rest);
      TranscriptIsHeard(input, addr, command, user);
    }
    forall bound, rest | LetsThrough(input, user, bound, rest)
      ensures e == Ending(Bound(bound), Transcript(input, addr, command, user), rest)
    {
      LetThrough(addr, command, user, input, fin, bound, rest);
    }
  }

  lemma MethodChosen(input: seq<byte>, user: Option<User>, bound: seq<byte>, rest: seq<byte>)
    requires LetsThrough(input, user, bound, rest)
    ensures |input| >= 2 && (input[1] == 2 ==> user.Some? && Usable(user.value))
  {
  }

  lemma SuccessOnly(addr: seq<byte>, command: byte, user: Option<User>, input: seq<byte>, fin: IoError)
    requires Valid(addr) && Handshake(addr, command, user, input, fin).result.Bound?
    ensures var e := Handshake(addr, command, user, input, fin);
            LetsThrough(input, user, e.result.addr, e.rest) && e.sent == Transcript(input, addr, command, user)
  {
    hide Asking, Request, AuthMessage, AddrOf, SplitAddr, Valid;
    if input[1] == METHOD_USER_PASS {
      var sent := Greeting(user) + AuthMessage(user.value);
      var any1, any2, bound, rest := AskingSucceededOnly(sent, command, addr, input[2..][2..], fin);
      assert input[2..] == [input[2..][0], 0] + input[2..][2..];
      assert input == [VERSION, METHOD_USER_PASS] + input[2..];
    } else {
      var any1, any2, bound, rest := AskingSucceededOnly(Greeting(user), command, addr, input[2..], fin);
      assert input == [VERSION, METHOD_NO_AUTH] + input[2..];
    }
  }

  lemma LetThrough(addr: seq<byte>, command: byte, user: Option<User>, input: seq<byte>, fin: IoError,
                   bound: seq<byte>, rest: seq<byte>)
    requires Valid(addr) && LetsThrough(input, user, bound, rest)
    ensures Handshake(addr, command, user, input, fin)
            == Ending(Bound(bound), Transcript(input, addr, command, user), rest)
  {
    if any1: byte, any2: byte :| input == [VERSION, METHOD_NO_AUTH] + ([any1, 0, any2] + (bound + rest)) {
      assert input[2..] == [any1, 0, any2] + (bound + rest);
      AskingSucceeds(Greeting(user), command, addr, any1, any2, bound, rest, fin);
    } else {
      var any0: byte, any1: byte, any2: byte :|
        input == [VERSION, METHOD_USER_PASS] + ([any0, 0] + ([any1, 0, any2] + (bound + rest)));
      assert input[2..] == [any0, 0] + ([any1, 0, any2] + (bound + rest));
      assert input[2..][2..] == [any1, 0, any2] + (bound + rest);
      AskingSucceeds(Greeting(user) + AuthMessage(user.value), command, addr, any1, any2, bound, rest, fin);
    }
  }

  /** Unless the server opens with version 5 and method 2, what is sent is at most the greeting and the
      request, and nothing in it depends on the credentials. */
  lemma CredentialsStaySecret(addr: seq<byte>, command: byte, u: User, v: User, input: seq<byte>, fin: IoError)
    requires !([VERSION, METHOD_USER_PASS] <= input)
    ensures var e := Handshake(addr, command, Some(u), input, fin);
            && e.sent in {[], Greeting(Some(u)), Greeting(Some(u)) + Request(command, addr)}
            && e.sent == Handshake(addr, command, Some(v), input, fin).sent
  {
  }

  /** The authentication message names one user: section 2 of RFC 1929 read backwards. */
  lemma AuthMessageInjective(u: User, v: User)
    requires Usable(u) && Usable(v) && AuthMessage(u) <= AuthMessage(v)
    ensures u == v
  {
    var a, b := AuthMessage(u), AuthMessage(v);
    var n := |u.name|;
    assert a[1] == b[1];
    assert a[2..2 + n] == u.name && b[2..2 + n] == v.name;
    assert a[2 + n] == b[2 + n];
    assert a[3 + n..3 + n + |u.password|] == u.password && b[3 + n..3 + n + |u.password|] == v.password;
  }

  /** What the code does not check: a server may waive authentication although only method 2 was offered. */
  lemma NoAuthIsAcceptedUnoffered(addr: seq<byte>, command: byte, u: User, fin: IoError)
    requires Valid(addr)
    ensures var input := [VERSION, METHOD_NO_AUTH] + ([0, 0, 0] + ([ATYP_IPV4, 0, 0, 0, 0, 0, 0] + []));
            Greeting(Some(u)) == [VERSION, 1, METHOD_USER_PASS]
            && Handshake(addr, command, Some(u), input, fin).result.Bound?
  {
    var bound := [ATYP_IPV4, 0, 0, 0, 0, 0, 0];
    var input := [VERSION, METHOD_NO_AUTH] + ([0, 0, 0] + (bound + []));
    assert bound[..7] == bound;
    assert LetsThrough(input, Some(u), bound, []);
    LetThrough(addr, command, Some(u), input, fin, bound, []);
  }

  /** The request phase, after `said` has been sent on top of what the sink held `before`. */
  method Ask(src: Source, sink: Sink, buf: array<byte>, addr: seq<byte>, command: byte,
             ghost before: seq<byte>, ghost said: seq<byte>) returns (result: Result)
    requires buf.Length == MAX_ADDR_LEN && !sink.failed && sink.sent == before + said
    modifies src, sink, buf
    ensures var e := Asking(said, command, addr, old(src.input), src.fin);
            && sink.sent <= before + e.sent
            && (sink.failed ==> result.Failure? && result.error.WriteFailed?)
            && (!sink.failed ==> result == e.result && sink.sent == before + e.sent && src.input == e.rest)
  {
    var req: seq<byte> := [VERSION];
    req := req + [command];
    req := req + [0];
    req := req + addr;
    assert req == Request(command, addr);
    var n, err := sink.Write(req);
    Assoc(before, said, req);
    if err.Some? {
      PrefixCons(before + said, req[..n], req);
      return Failure(WriteFailed(err.value));
    }
    assert req[..n] == req;
    n, err := ReadFull(src, buf, 0, 3);
    if err.Some? {
      return Failure(ReadFailed(err.value));
    }
    assert buf[0..0 + n] == old(src.input)[..3];
    assert buf[1] == buf[0..0 + n][1] == old(src.input)[1];
    if buf[1] != 0 {
      return Failure(Refused(buf[1]));
    }
    var reply := ReadAddr(src, buf);
    result := match reply case Ok(a) => Bound(a) case Err(e) => Failure(Address(e));
  }

  /** The authentication phase, after the greeting. */
  method Authenticate(src: Source, sink: Sink, buf: array<byte>, addr: seq<byte>, command: byte,
                      user: Option<User>, ghost before: seq<byte>) returns (result: Result)
    requires buf.Length == MAX_ADDR_LEN && !sink.failed && sink.sent == before + Greeting(user)
    modifies src, sink, buf
    ensures var e := Authenticating(user, command, addr, old(src.input), src.fin);
            && sink.sent <= before + e.sent
            && (sink.failed ==> result.Failure? && result.error.WriteFailed?)
            && (!sink.failed ==> result == e.result && sink.sent == before + e.sent && src.input == e.rest)
  {
    if user.None? {
      return Failure(AuthRequired);
    }
    var uLen, pLen := |user.value.name|, |user.value.password|;
    if uLen == 0 || pLen == 0 {
      return Failure(AuthEmpty);
    } else if uLen > MAX_AUTH_LEN || pLen > MAX_AUTH_LEN {
      return Failure(AuthTooLong);
    }
    var message: seq<byte> := [1];
    message := message + [uLen];
    message := message + user.value.name;
    message := message + [pLen];
    message := message + user.value.password;
    ghost var said := Greeting(user) + message;
    Assoc(before, Greeting(user), message);
    var n, err := sink.Write(message);
    if err.Some? {
      SentNoMore(before, Greeting(user), message, n, command, addr, src.input, src.fin, user);
      return Failure(WriteFailed(err.value));
    }
    assert message[..n] == message;
    n, err := ReadFull(src, buf, 0, 2);
    if err.Some? {
      return Failure(ReadFailed(err.value));
    }
    assert buf[0..0 + n] == old(src.input)[..2];
    assert buf[1] == buf[0..0 + n][1] == old(src.input)[1];
    if buf[1] != 0 {
      return Failure(AuthRejected);
    }
    result := Ask(src, sink, buf, addr, command, before, said);
  }

  /** A write cut short in the authentication message leaves a prefix of what the phase sends. */
  lemma SentNoMore(before: seq<byte>, greeting: seq<byte>, message: seq<byte>, n: nat, command: byte,
                   addr: seq<byte>, input: seq<byte>, fin: IoError, user: Option<User>)
    requires user.Some? && Usable(user.value) && greeting == Greeting(user) && message == AuthMessage(user.value)
    requires n <= |message|
    ensures before + greeting + message[..n] <= before + Authenticating(user, command, addr, input, fin).sent
  {
    var e := Authenticating(user, command, addr, input, fin);
    assert greeting + message <= e.sent;
    assert greeting + message[..n] <= greeting + message;
    PrefixCons(before, greeting + message[..n], e.sent);
    Assoc(before, greeting, message[..n]);
  }

  lemma OpensWithGreeting(addr: seq<byte>, command: byte, user: Option<User>, input: seq<byte>, fin: IoError)
    requires Valid(addr)
    ensures Greeting(user) <= Handshake(addr, command, user, input, fin).sent
  {
  }

  /** `ClientHandshake`: whatever the fragments, the ending is the one the byte stream determines; when a
      write fails, what was sent is a prefix of what that ending would have sent. */
  method ClientHandshake(src: Source, sink: Sink, addr: seq<byte>, command: byte, user: Option<User>)
      returns (result: Result)
    requires !sink.failed
    modifies src, sink
    ensures var e := Handshake(addr, command, user, old(src.input), src.fin);
            && sink.sent <= old(sink.sent) + e.sent
            && (sink.failed ==> result.Failure? && result.error.WriteFailed?)
            && (!sink.failed ==>
                  result == e.result && sink.sent == old(sink.sent) + e.sent && src.input == e.rest)
  {
    if !Valid(addr) {
      return Failure(InvalidAddress);
    }
    var buf := new byte[MAX_ADDR_LEN];
    var chosen: byte := if user.Some? then METHOD_USER_PASS else METHOD_NO_AUTH;
    var greeting: seq<byte> := [VERSION, 1, chosen];
    var n, err := sink.Write(greeting);
    if err.Some? {
      OpensWithGreeting(addr, command, user, src.input, src.fin);
      PrefixCons(old(sink.sent), greeting[..n], Handshake(addr, command, user, src.input, src.fin).sent);
      return Failure(WriteFailed(err.value));
    }
    assert greeting[..n] == greeting;
    n, err := ReadFull(src, buf, 0, 2);
    if err.Some? {
      return Failure(ReadFailed(err.value));
    }
    assert buf[0..0 + n] == old(src.input)[..2];
    assert buf[0] == buf[0..0 + n][0] == old(src.input)[0] && buf[1] == buf[0..0 + n][1] == old(src.input)[1];
    if buf[0] != VERSION {
      return Failure(VersionMismatch);
    }
    if buf[1] == METHOD_USER_PASS {
      result := Authenticate(src, sink, buf, addr, command, user, old(sink.sent));
    } else if buf[1] != METHOD_NO_AUTH {
      result := Failure(UnsupportedMethod);
    } else {
      result := Ask(src, sink, buf, addr, command, old(sink.sent), Greeting(user));
    }
  }
}

/** The SOCKS5 handshake (sections 3 and 4 of RFC 1928, section 2 of RFC 1929): what each part
    reads, replies and leaves unread, and the code that does it on the connection. */
module Socks5 {
  import opened Bytes
  import opened Wrappers
  import opened ByteStreams

  const SOCKS_VERSION: byte := 5
  const AUTH_NO_AUTH: byte := 0
  const AUTH_USER_PASS: byte := 2
  const NO_ACCEPTABLE_METHODS: byte := 255

  datatype SocksError =
    | Eof | BadVersion | NoMethod | NoDefaultUser | UnknownUser | BadAuthVersion | NotUtf8 | BadCredentials
    | BadHeader | BadCommand | BadAddressType | ZeroPort

  /** Addresses stay as bytes; their textual form is the standard library's. */
  datatype Host = Domain(name: seq<byte>) | Ip4(octets: seq<byte>) | Ip6(octets: seq<byte>)

  /** What the handshake relies on: whether bytes are UTF-8, and the user store. */
  datatype Setup = Setup(
    allowNoAuth: bool, defaultUser: Option<seq<byte>>,
    utf8: seq<byte> -> bool, knows: seq<byte> -> bool, accepts: (seq<byte>, seq<byte>) -> bool)

  /** A part of the handshake ends with a value and the bytes it left unread, or fails; either way
      it has sent a reply. */
  datatype Step<+T> = Done(value: T, rest: seq<byte>, sent: seq<byte>) | Fail(error: SocksError, sent: seq<byte>)

  function Negotiate(input: seq<byte>, setup: Setup): Step<byte> {
    if |input| < 1 then Fail(Eof, [])
    else if input[0] != SOCKS_VERSION then Fail(BadVersion, [])
    else if |input| < 2 || |input| < 2 + input[1] as nat then Fail(Eof, [])
    else
      var methods, rest := input[2..2 + input[1]], input[2 + input[1]..];
      if setup.allowNoAuth && AUTH_NO_AUTH in methods then Done(AUTH_NO_AUTH, rest, [SOCKS_VERSION, AUTH_NO_AUTH])
      else if AUTH_USER_PASS in methods then Done(AUTH_USER_PASS, rest, [SOCKS_VERSION, AUTH_USER_PASS])
      else Fail(NoMethod, [SOCKS_VERSION, NO_ACCEPTABLE_METHODS])
  }

  function ReadText(input: seq<byte>, setup: Setup): Step<seq<byte>> {
    if |input| < 1 || |input| < 1 + input[0] as nat then Fail(Eof, [])
    else if !setup.utf8(input[1..1 + input[0]]) then Fail(NotUtf8, [])
    else Done(input[1..1 + input[0]], input[1 + input[0]..], [])
  }

  function Authenticate(input: seq<byte>, chosen: byte, setup: Setup): Step<seq<byte>> {
    if chosen == AUTH_NO_AUTH then
      if setup.defaultUser.None? then Fail(NoDefaultUser, [])
      else if !setup.knows(setup.defaultUser.value) then Fail(UnknownUser, [])
      else Done(setup.defaultUser.value, input, [])
    else if |input| < 1 then Fail(Eof, [])
    else if input[0] != 1 then Fail(BadAuthVersion, [1, 1])
    else
      match ReadText(input[1..], setup)
      case Fail(e, _) => Fail(e, [])
      case Done(username, afterName, _) =>
        match ReadText(afterName, setup)
        case Fail(e, _) => Fail(e, [])
        case Done(password, rest, _) =>
          if setup.accepts(username, password) then Done(username, rest, [1, 0]) else Fail(BadCredentials, [1, 1])
  }

  function Reply(code: byte): seq<byte> {
    [SOCKS_VERSION, code, 0, 1, 0, 0, 0, 0, 0, 0]
  }

  function ReadHost(input: seq<byte>, atyp: byte, setup: Setup): Step<Host> {
    if atyp == 1 then
      if |input| < 4 then Fail(Eof, []) else Done(Ip4(input[..4]), input[4..], [])
    else if atyp == 3 then
      match ReadText(input, setup)
      case Fail(e, sent) => Fail(e, sent)
      case Done(name, rest, sent) => Done(Domain(name), rest, sent)
    else if atyp == 4 then
      if |input| < 16 then Fail(Eof, []) else Done(Ip6(input[..16]), input[16..], [])
    else Fail(BadAddressType, Reply(8))
  }

  function ReadConnect(input: seq<byte>, setup: Setup): Step<(Host, nat)> {
    if |input| < 4 then Fail(Eof, [])
    else if input[0] != SOCKS_VERSION || input[2] != 0 then Fail(BadHeader, [])
    else if input[1] != 1 then Fail(BadCommand, Reply(7))
    else
      match ReadHost(input[4..], input[3], setup)
      case Fail(e, sent) => Fail(e, sent)
      case Done(host, rest, _) =>
        if |rest| < 2 then Fail(Eof, [])
        else
          var port := rest[0] as nat * 256 + rest[1] as nat;
          if port == 0 then Fail(ZeroPort, Reply(4)) else Done((host, port), rest[2..], [])
  }

  /** The whole handshake: user, target host and port. */
  function Handshake(input: seq<byte>, setup: Setup): Step<(seq<byte>, Host, nat)> {
    match Negotiate(input, setup)
    case Fail(e, sent) => Fail(e, sent)
    case Done(chosen, afterGreeting, sent1) =>
      match Authenticate(afterGreeting, chosen, setup)
      case Fail(e, sent2) => Fail(e, sent1 + sent2)
      case Done(user, afterAuth, sent2) =>
        match ReadConnect(afterAuth, setup)
        case Fail(e, sent3) => Fail(e, sent1 + sent2 + sent3)
        case Done(target, rest, sent3) => Done((user, target.0, target.1), rest, sent1 + sent2 + sent3)
  }

  // ----- what a client sends

  function Greeting(methods: seq<byte>): seq<byte>
    requires |methods| <= 255
  {
    [5, |methods|] + methods
  }

  function Text(s: seq<byte>): seq<byte>
    requires |s| <= 255
  {
    [|s|] + s
  }

  function Credentials(username: seq<byte>, password: seq<byte>): seq<byte>
    requires |username| <= 255 && |password| <= 255
  {
    [1] + (Text(username) + Text(password))
  }

  predicate ValidHost(h: Host) {
    match h
    case Domain(name) => |name| <= 255
    case Ip4(o) => |o| == 4
    case Ip6(o) => |o| == 16
  }

  function AddressType(h: Host): byte {
    match h case Ip4(_) => 1 case Domain(_) => 3 case Ip6(_) => 4
  }

  function HostBytes(h: Host): seq<byte>
    requires ValidHost(h)
  {
    if h.Domain? then Text(h.name) else h.octets
  }

  function Connect(host: Host, port: nat): seq<byte>
    requires ValidHost(host) && port <= 65535
  {
    [5, 1, 0, AddressType(host)] + (HostBytes(host) + [port / 256, port % 256])
  }

  // ----- parts and encodings agree, both ways

  lemma NegotiateReads(methods: seq<byte>, tail: seq<byte>, setup: Setup)
    requires |methods| <= 255
    ensures Negotiate(Greeting(methods) + tail, setup) ==
              if setup.allowNoAuth && 0 in methods then Done(0, tail, [5, 0])
              else if 2 in methods then Done(2, tail, [5, 2])
              else Fail(NoMethod, [5, 255])
  {
    var input := Greeting(methods) + tail;
    assert input[2..2 + |methods|] == methods && input[2 + |methods|..] == tail;
  }

  lemma NegotiateConsumes(input: seq<byte>, setup: Setup) returns (methods: seq<byte>)
    requires Negotiate(input, setup).Done?
    ensures |methods| <= 255 && input == Greeting(methods) + Negotiate(input, setup).rest
    ensures Negotiate(input, setup).value in methods
    ensures Negotiate(input, setup).value == 0 <==> setup.allowNoAuth && 0 in methods
  {
    methods := input[2..2 + input[1]];
  }

  lemma TextReads(s: seq<byte>, tail: seq<byte>, setup: Setup)
    requires |s| <= 255
    ensures ReadText(Text(s) + tail, setup) == if setup.utf8(s) then Done(s, tail, []) else Fail(NotUtf8, [])
  {
    var input := Text(s) + tail;
    assert input[1..1 + |s|] == s && input[1 + |s|..] == tail;
  }

  lemma TextConsumes(input: seq<byte>, setup: Setup)
    requires ReadText(input, setup).Done?
    ensures var r := ReadText(input, setup); |r.value| <= 255 && setup.utf8(r.value) && input == Text(r.value) + r.rest
  {
  }

  lemma CredentialsRead(username: seq<byte>, password: seq<byte>, tail: seq<byte>, setup: Setup)
    requires |username| <= 255 && |password| <= 255 && setup.utf8(username) && setup.utf8(password)
    ensures Authenticate(Credentials(username, password) + tail, 2, setup) ==
              if setup.accepts(username, password) then Done(username, tail, [1, 0]) else Fail(BadCredentials, [1, 1])
  {
    var input := Credentials(username, password) + tail;
    assert input[1..] == Text(username) + (Text(password) + tail);
    TextReads(username, Text(password) + tail, setup);
    TextReads(password, tail, setup);
  }

  lemma CredentialsConsume(input: seq<byte>, setup: Setup) returns (password: seq<byte>)
    requires Authenticate(input, 2, setup).Done?
    ensures var r := Authenticate(input, 2, setup);
            && |r.value| <= 255 && |password| <= 255 && setup.utf8(r.value) && setup.utf8(password)
            && setup.accepts(r.value, password) && input == Credentials(r.value, password) + r.rest
  {
    var name := ReadText(input[1..], setup);
    TextConsumes(input[1..], setup);
    TextConsumes(name.rest, setup);
    password := ReadText(name.rest, setup).value;
    assert input == [input[0]] + input[1..];
  }

  predicate UsableHost(h: Host, setup: Setup) {
    ValidHost(h) && (h.Domain? ==> setup.utf8(h.name))
  }

  lemma HostReads(h: Host, tail: seq<byte>, setup: Setup)
    requires UsableHost(h, setup)
    ensures ReadHost(HostBytes(h) + tail, AddressType(h), setup) == Done(h, tail, [])
  {
    if h.Domain? {
      TextReads(h.name, tail, setup);
    } else {
      var input := HostBytes(h) + tail;
      assert input[..|h.octets|] == h.octets && input[|h.octets|..] == tail;
    }
  }

  lemma ConnectReads(host: Host, port: nat, tail: seq<byte>, setup: Setup)
    requires UsableHost(host, setup) && 0 < port <= 65535
    ensures ReadConnect(Connect(host, port) + tail, setup) == Done((host, port), tail, [])
  {
    hide ReadHost, HostBytes, AddressType;
    var input, p := Connect(host, port) + tail, [port / 256, port % 256];
    assert input[4..] == HostBytes(host) + (p + tail);
    HostReads(host, p + tail, setup);
    assert (p + tail)[2..] == tail;
  }

  lemma ConnectConsumes(input: seq<byte>, setup: Setup)
    requires ReadConnect(input, setup).Done?
    ensures var r := ReadConnect(input, setup);
            UsableHost(r.value.0, setup) && 0 < r.value.1 <= 65535 && input == Connect(r.value.0, r.value.1) + r.rest
  {
    hide ReadHost, HostBytes, UsableHost, AddressType;
    var h := ReadHost(input[4..], input[3], setup);
    HostConsumes(input[4..], input[3], setup);
    PortConsumes(h.rest);
    assert input == input[..4] + input[4..];
    assert input[..4] == [5, 1, 0, AddressType(h.value)];
  }

  lemma PortConsumes(rest: seq<byte>)
    requires |rest| >= 2
    ensures var port := rest[0] as nat * 256 + rest[1] as nat;
            port <= 65535 && rest == [port / 256, port % 256] + rest[2..]
  {
  }

  lemma HostConsumes(input: seq<byte>, atyp: byte, setup: Setup)
    requires ReadHost(input, atyp, setup).Done?
    ensures var r := ReadHost(input, atyp, setup);
            UsableHost(r.value, setup) && AddressType(r.value) == atyp && input == HostBytes(r.value) + r.rest
  {
    if atyp == 3 {
      TextConsumes(input, setup);
    }
  }

  // ----- the whole handshake

  /** After a greeting that offers user and password, and credentials that the store accepts, the
      handshake is what is read from the rest. */
  lemma AfterCredentials(methods: seq<byte>, username: seq<byte>, password: seq<byte>, input: seq<byte>, setup: Setup)
    requires |methods| <= 255 && 2 in methods && !(setup.allowNoAuth && 0 in methods)
    requires |username| <= 255 && |password| <= 255 && setup.utf8(username) && setup.utf8(password)
    requires setup.accepts(username, password)
    ensures Handshake(Greeting(methods) + (Credentials(username, password) + input), setup) ==
              match ReadConnect(input, setup)
              case Fail(e, sent) => Fail(e, [5, 2, 1, 0] + sent)
              case Done(target, rest, sent) => Done((username, target.0, target.1), rest, [5, 2, 1, 0] + sent)
  {
    hide Negotiate, Authenticate, ReadConnect, Greeting, Credentials;
    NegotiateReads(methods, Credentials(username, password) + input, setup);
    CredentialsRead(username, password, input, setup);
    assert [5, 2] + [1, 0] == [5, 2, 1, 0];
  }

  /** The same where no authentication is allowed and offered. */
  lemma AfterOpenGreeting(methods: seq<byte>, input: seq<byte>, setup: Setup)
    requires |methods| <= 255 && setup.allowNoAuth && 0 in methods
    requires setup.defaultUser.Some? && setup.knows(setup.defaultUser.value)
    ensures Handshake(Greeting(methods) + input, setup) ==
              match ReadConnect(input, setup)
              case Fail(e, sent) => Fail(e, [5, 0] + sent)
              case Done(target, rest, sent) => Done((setup.defaultUser.value, target.0, target.1), rest, [5, 0] + sent)
  {
    hide Negotiate, ReadConnect, Greeting;
    NegotiateReads(methods, input, setup);
    assert [5, 0] + [] == [5, 0];
  }

  /** A well-formed greeting, credentials that the store accepts, and a CONNECT to a non-zero port:
      the handshake yields the encoded user, host and port and leaves the following bytes unread. */
  lemma HandshakeReads(methods: seq<byte>, username: seq<byte>, password: seq<byte>, host: Host, port: nat,
                       tail: seq<byte>, setup: Setup)
    requires |methods| <= 255 && 2 in methods && !(setup.allowNoAuth && 0 in methods)
    requires |username| <= 255 && |password| <= 255 && setup.utf8(username) && setup.utf8(password)
    requires setup.accepts(username, password) && UsableHost(host, setup) && 0 < port <= 65535
    ensures Handshake(Greeting(methods) + (Credentials(username, password) + (Connect(host, port) + tail)), setup) ==
              Done((username, host, port), tail, [5, 2, 1, 0])
  {
    hide Handshake, ReadConnect, Greeting, Credentials, Connect;
    AfterCredentials(methods, username, password, Connect(host, port) + tail, setup);
    ConnectReads(host, port, tail, setup);
  }

  /** Without authentication, where that is allowed and offered. */
  lemma OpenHandshakeReads(methods: seq<byte>, host: Host, port: nat, tail: seq<byte>, setup: Setup)
    requires |methods| <= 255 && setup.allowNoAuth && 0 in methods
    requires setup.defaultUser.Some? && setup.knows(setup.defaultUser.value)
    requires UsableHost(host, setup) && 0 < port <= 65535
    ensures Handshake(Greeting(methods) + (Connect(host, port) + tail), setup) ==
              Done((setup.defaultUser.value, host, port), tail, [5, 0])
  {
    hide Handshake, ReadConnect, Greeting, Connect;
    AfterOpenGreeting(methods, Connect(host, port) + tail, setup);
    ConnectReads(host, port, tail, setup);
  }

  lemma HandshakeParts(input: seq<byte>, setup: Setup)
    requires Handshake(input, setup).Done?
    ensures var n := Negotiate(input, setup);
            && n.Done?
            && var a := Authenticate(n.rest, n.value, setup);
            && a.Done?
            && var c := ReadConnect(a.rest, setup);
            && c.Done?
            && Handshake(input, setup).value == (a.value, c.value.0, c.value.1) && Handshake(input, setup).rest == c.rest
  {
    hide Negotiate, Authenticate, ReadConnect;
  }

  /** Conversely a handshake succeeds only on such an encoding, and consumes exactly that. */
  lemma {:induction false} HandshakeConsumes(input: seq<byte>, setup: Setup) returns (methods: seq<byte>, password: seq<byte>)
    requires Handshake(input, setup).Done?
    ensures var r := Handshake(input, setup);
            var (user, host, port) := r.value;
            && UsableHost(host, setup) && 0 < port <= 65535 && |methods| <= 255 && |password| <= 255
            && if setup.allowNoAuth && 0 in methods
               then setup.defaultUser == Some(user) && setup.knows(user) && input == Greeting(methods) + (Connect(host, port) + r.rest)
               else && 2 in methods && |user| <= 255 && setup.accepts(user, password)
                    && input == Greeting(methods) + (Credentials(user, password) + (Connect(host, port) + r.rest))
  {
    HandshakeParts(input, setup);
    var n := Negotiate(input, setup);
    methods := NegotiateConsumes(input, setup);
    assert n.value == 0 || n.value == 2;
    hide Negotiate, ReadConnect, Handshake, Connect, Credentials, Greeting;
    var a := Authenticate(n.rest, n.value, setup);
    ConnectConsumes(a.rest, setup);
    password := [];
    if n.value == 2 {
      password := CredentialsConsume(n.rest, setup);
    } else {
      assert a.rest == n.rest && setup.defaultUser == Some(a.value);
    }
  }

  // ----- the code

  /** How a method's outcome and its effect on the connection follow the specification. */
  ghost predicate Follows<T>(stream: ByteStream, sentBefore: seq<byte>, step: Step<T>, r: Result<T, SocksError>)
    reads stream
  {
    && stream.sent == sentBefore + step.sent
    && match step
       case Done(value, rest, _) => r == Ok(value) && stream.unread == rest
       case Fail(error, _) => r == Err(error)
  }

  method NegotiateAuth(stream: ByteStream, setup: Setup) returns (r: Result<byte, SocksError>)
    modifies stream
    ensures Follows(stream, old(stream.sent), Negotiate(old(stream.unread), setup), r)
  {
    var version := stream.ReadByte();
    if version.None? {
      return Err(Eof);
    }
    if version.value != SOCKS_VERSION {
      return Err(BadVersion);
    }
    var count := stream.ReadByte();
    if count.None? {
      return Err(Eof);
    }
    var methods := stream.ReadExact(count.value);
    if methods.None? {
      return Err(Eof);
    }
    ghost var input := old(stream.unread);
    assert methods.value == input[2..2 + input[1]] && stream.unread == input[2 + input[1]..];
    if setup.allowNoAuth && AUTH_NO_AUTH in methods.value {
      stream.WriteAll([SOCKS_VERSION, AUTH_NO_AUTH]);
      return Ok(AUTH_NO_AUTH);
    }
    if AUTH_USER_PASS in methods.value {
      stream.WriteAll([SOCKS_VERSION, AUTH_USER_PASS]);
      return Ok(AUTH_USER_PASS);
    }
    stream.WriteAll([SOCKS_VERSION, NO_ACCEPTABLE_METHODS]);
    return Err(NoMethod);
  }

  method ReadSocksString(stream: ByteStream, setup: Setup) returns (r: Result<seq<byte>, SocksError>)
    modifies stream`unread
    ensures Follows(stream, old(stream.sent), ReadText(old(stream.unread), setup), r)
  {
    var len := stream.ReadByte();
    if len.None? {
      return Err(Eof);
    }
    var buf := stream.ReadExact(len.value);
    if buf.None? {
      return Err(Eof);
    }
    ghost var input := old(stream.unread);
    assert buf.value == input[1..1 + input[0]] && stream.unread == input[1 + input[0]..];
    if !setup.utf8(buf.value) {
      return Err(NotUtf8);
    }
    return Ok(buf.value);
  }

  method AuthenticateUser(stream: ByteStream, chosen: byte, setup: Setup) returns (r: Result<seq<byte>, SocksError>)
    modifies stream
    ensures Follows(stream, old(stream.sent), Authenticate(old(stream.unread), chosen, setup), r)
  {
    if chosen == AUTH_NO_AUTH {
      if setup.defaultUser.None? {
        return Err(NoDefaultUser);
      }
      return if setup.knows(setup.defaultUser.value) then Ok(setup.defaultUser.value) else Err(UnknownUser);
    }
    var version := stream.ReadByte();
    if version.None? {
      return Err(Eof);
    }
    if version.value != 1 {
      stream.WriteAll([1, 1]);
      return Err(BadAuthVersion);
    }
    var username := ReadSocksString(stream, setup);
    if username.Err? {
      return Err(username.error);
    }
    var password := ReadSocksString(stream, setup);
    if password.Err? {
      return Err(password.error);
    }
    if setup.accepts(username.value, password.value) {
      stream.WriteAll([1, 0]);
      return Ok(username.value);
    }
    stream.WriteAll([1, 1]);
    return Err(BadCredentials);
  }

  method ReadTargetHost(stream: ByteStream, atyp: byte, setup: Setup) returns (r: Result<Host, SocksError>)
    modifies stream
    ensures Follows(stream, old(stream.sent), ReadHost(old(stream.unread), atyp, setup), r)
  {
    match atyp {
      case 1 =>
        var buf := stream.ReadExact(4);
        return if buf.None? then Err(Eof) else Ok(Ip4(buf.value));
      case 3 =>
        var name := ReadSocksString(stream, setup);
        return if name.Err? then Err(name.error) else Ok(Domain(name.value));
      case 4 =>
        var buf := stream.ReadExact(16);
        return if buf.None? then Err(Eof) else Ok(Ip6(buf.value));
      case _ =>
        stream.WriteAll(Reply(8));
        return Err(BadAddressType);
    }
  }

  method ReadConnectRequest(stream: ByteStream, setup: Setup) returns (r: Result<(Host, nat), SocksError>)
    modifies stream
    ensures Follows(stream, old(stream.sent), ReadConnect(old(stream.unread), setup), r)
  {
    ghost var input := stream.unread;
    var head := stream.ReadExact(4);
    if head.None? {
      return Err(Eof);
    }
    var version, command, reserved, atyp := head.value[0], head.value[1], head.value[2], head.value[3];
    if version != SOCKS_VERSION || reserved != 0 {
      return Err(BadHeader);
    }
    if command != 1 {
      stream.WriteAll(Reply(7));
      return Err(BadCommand);
    }
    var host := ReadTargetHost(stream, atyp, setup);
    if host.Err? {
      return Err(host.error);
    }
    var bytes := stream.ReadExact(2);
    if bytes.None? {
      return Err(Eof);
    }
    var port := bytes.value[0] as nat * 256 + bytes.value[1] as nat;
    if port == 0 {
      stream.WriteAll(Reply(4));
      return Err(ZeroPort);
    }
    return Ok((host.value, port));
  }

  /** The three parts in order, as the connection handler runs them. */
  method RunHandshake(stream: ByteStream, setup: Setup) returns (r: Result<(seq<byte>, Host, nat), SocksError>)
    modifies stream
    ensures Follows(stream, old(stream.sent), Handshake(old(stream.unread), setup), r)
  {
    hide Negotiate, Authenticate, ReadConnect;
    var chosen := NegotiateAuth(stream, setup);
    if chosen.Err? {
      return Err(chosen.error);
    }
    var user := AuthenticateUser(stream, chosen.value, setup);
    if user.Err? {
      return Err(user.error);
    }
    var target := ReadConnectRequest(stream, setup);
    if target.Err? {
      return Err(target.error);
    }
    return Ok((user.value, target.value.0, target.value.1));
  }
}

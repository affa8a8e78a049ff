/** What a refused SOCKS5 handshake is told (section 6 of RFC 1928, section 2 of RFC 1929), byte by
    byte, and what is told to one cut short. */
module Socks5Refusals {
  import opened Bytes
  import opened Socks5

  /** A reply that carries no address, with its code. */
  function Refusal(code: byte): seq<byte> {
    [5, code, 0, 1, 0, 0, 0, 0, 0, 0]
  }

  // ----- the greeting and the credentials

  lemma GreetingIsRefused(methods: seq<byte>, tail: seq<byte>, setup: Setup)
    requires |methods| <= 255 && 2 !in methods && !(setup.allowNoAuth && 0 in methods)
    ensures Handshake(Greeting(methods) + tail, setup) == Fail(NoMethod, [5, 255])
  {
    hide Negotiate, Authenticate, ReadConnect, Greeting;
    NegotiateReads(methods, tail, setup);
  }

  lemma OtherVersionIsRefused(input: seq<byte>, setup: Setup)
    requires input != [] && input[0] != 5
    ensures Handshake(input, setup) == Fail(BadVersion, [])
  {
  }

  /** Credentials that the store does not accept, or in another version, get the status 1; text that
      is not UTF-8 gets no answer. */
  lemma CredentialsAreRefused(methods: seq<byte>, username: seq<byte>, password: seq<byte>, tail: seq<byte>,
                              version: byte, setup: Setup)
    requires |methods| <= 255 && 2 in methods && !(setup.allowNoAuth && 0 in methods)
    requires |username| <= 255 && |password| <= 255
    requires version != 1 || !setup.utf8(username) || !setup.utf8(password) || !setup.accepts(username, password)
    ensures Handshake(Greeting(methods) + ([version] + (Text(username) + Text(password)) + tail), setup) ==
              if version != 1 then Fail(BadAuthVersion, [5, 2, 1, 1])
              else if !setup.utf8(username) || !setup.utf8(password) then Fail(NotUtf8, [5, 2])
              else Fail(BadCredentials, [5, 2, 1, 1])
  {
    hide Negotiate, ReadConnect, ReadText, Greeting, Text;
    var input := [version] + (Text(username) + Text(password)) + tail;
    NegotiateReads(methods, input, setup);
    assert input[1..] == Text(username) + (Text(password) + tail);
    TextReads(username, Text(password) + tail, setup);
    TextReads(password, tail, setup);
    assert [5, 2] + [1, 1] == [5, 2, 1, 1] && [5, 2] + [] == [5, 2];
  }

  /** Where no authentication is chosen, a missing or unknown default user ends the handshake. */
  lemma DefaultUserIsNeeded(methods: seq<byte>, tail: seq<byte>, setup: Setup)
    requires |methods| <= 255 && setup.allowNoAuth && 0 in methods
    requires setup.defaultUser.None? || !setup.knows(setup.defaultUser.value)
    ensures Handshake(Greeting(methods) + tail, setup) ==
              Fail(if setup.defaultUser.None? then NoDefaultUser else UnknownUser, [5, 0])
  {
    hide Negotiate, ReadConnect, Greeting;
    NegotiateReads(methods, tail, setup);
    assert [5, 0] + [] == [5, 0];
  }

  // ----- the request

  /** Another version or reserved byte gets no answer, another command than CONNECT gets code 7 and
      an unknown address type code 8. */
  lemma RequestHeadIsRefused(version: byte, command: byte, reserved: byte, atyp: byte, tail: seq<byte>, setup: Setup)
    requires version != 5 || reserved != 0 || command != 1 || atyp !in {1, 3, 4}
    ensures ReadConnect([version, command, reserved, atyp] + tail, setup) ==
              if version != 5 || reserved != 0 then Fail(BadHeader, [])
              else if command != 1 then Fail(BadCommand, Refusal(7))
              else Fail(BadAddressType, Refusal(8))
  {
    assert ([version, command, reserved, atyp] + tail)[4..] == tail;
  }

  /** Port 0 gets code 4, for every host. */
  lemma ZeroPortIsRefused(host: Host, tail: seq<byte>, setup: Setup)
    requires UsableHost(host, setup)
    ensures ReadConnect(Connect(host, 0) + tail, setup) == Fail(ZeroPort, Refusal(4))
  {
    hide ReadHost, HostBytes, AddressType;
    var input, p := Connect(host, 0) + tail, [0, 0];
    assert input[4..] == HostBytes(host) + (p + tail);
    HostReads(host, p + tail, setup);
  }

  /** A name that is not UTF-8 gets no answer. */
  lemma NameIsRefused(name: seq<byte>, port: nat, tail: seq<byte>, setup: Setup)
    requires |name| <= 255 && !setup.utf8(name) && port <= 65535
    ensures ReadConnect(Connect(Domain(name), port) + tail, setup) == Fail(NotUtf8, [])
  {
    hide ReadText, Text;
    var input, p := Connect(Domain(name), port) + tail, [port / 256, port % 256];
    assert input[4..] == Text(name) + (p + tail);
    TextReads(name, p + tail, setup);
  }

  // ----- the whole handshake

  /** The request is refused as above after either way to authenticate: the reply follows the bytes
      that accepted the greeting and the credentials. */
  lemma {:induction false} RequestIsRefused(
    methods: seq<byte>, username: seq<byte>, password: seq<byte>, input: seq<byte>, setup: Setup)
    requires |methods| <= 255 && ReadConnect(input, setup).Fail?
    ensures var r := ReadConnect(input, setup);
            && (2 in methods && !(setup.allowNoAuth && 0 in methods) && |username| <= 255 && |password| <= 255
                && setup.utf8(username) && setup.utf8(password) && setup.accepts(username, password) ==>
                  Handshake(Greeting(methods) + (Credentials(username, password) + input), setup)
                    == Fail(r.error, [5, 2, 1, 0] + r.sent))
            && (setup.allowNoAuth && 0 in methods
                && setup.defaultUser.Some? && setup.knows(setup.defaultUser.value) ==>
                  Handshake(Greeting(methods) + input, setup) == Fail(r.error, [5, 0] + r.sent))
  {
    hide Handshake, ReadConnect, Greeting, Credentials;
    if setup.allowNoAuth && 0 in methods {
      if setup.defaultUser.Some? && setup.knows(setup.defaultUser.value) {
        AfterOpenGreeting(methods, input, setup);
      }
    } else if 2 in methods && |username| <= 255 && |password| <= 255
              && setup.utf8(username) && setup.utf8(password) && setup.accepts(username, password) {
      AfterCredentials(methods, username, password, input, setup);
    }
  }

  // ----- inputs cut short

  lemma GreetingCutShort(methods: seq<byte>, n: nat, setup: Setup)
    requires |methods| <= 255 && n < |Greeting(methods)|
    ensures Handshake(Greeting(methods)[..n], setup) == Fail(Eof, [])
  {
  }

  lemma TextCutShort(s: seq<byte>, n: nat, setup: Setup)
    requires |s| <= 255 && n < |Text(s)|
    ensures ReadText(Text(s)[..n], setup) == Fail(Eof, [])
  {
  }

  lemma CredentialsCutShort(username: seq<byte>, password: seq<byte>, n: nat, setup: Setup)
    requires |username| <= 255 && |password| <= 255 && setup.utf8(username)
    requires n < |Credentials(username, password)|
    ensures Authenticate(Credentials(username, password)[..n], 2, setup) == Fail(Eof, [])
  {
    hide ReadText, Text;
    var input := Credentials(username, password)[..n];
    if n > 0 {
      var u, p := Text(username), Text(password);
      assert input[1..] == (u + p)[..n - 1];
      if n - 1 < |u| {
        assert (u + p)[..n - 1] == u[..n - 1];
        TextCutShort(username, n - 1, setup);
      } else {
        assert (u + p)[..n - 1] == u + p[..n - 1 - |u|];
        TextReads(username, p[..n - 1 - |u|], setup);
        TextCutShort(password, n - 1 - |u|, setup);
      }
    }
  }

  lemma HostCutShort(host: Host, n: nat, setup: Setup)
    requires ValidHost(host) && n < |HostBytes(host)|
    ensures ReadHost(HostBytes(host)[..n], AddressType(host), setup) == Fail(Eof, [])
  {
    hide ReadText, Text;
    if host.Domain? {
      TextCutShort(host.name, n, setup);
    }
  }

  lemma ConnectCutShort(host: Host, port: nat, n: nat, setup: Setup)
    requires UsableHost(host, setup) && port <= 65535 && n < |Connect(host, port)|
    ensures ReadConnect(Connect(host, port)[..n], setup) == Fail(Eof, [])
  {
    hide ReadHost, HostBytes, AddressType;
    var input, h, p := Connect(host, port)[..n], HostBytes(host), [port / 256, port % 256];
    if n >= 4 {
      assert input[4..] == (h + p)[..n - 4];
      if n - 4 < |h| {
        assert (h + p)[..n - 4] == h[..n - 4];
        HostCutShort(host, n - 4, setup);
      } else {
        assert (h + p)[..n - 4] == h + p[..n - 4 - |h|];
        HostReads(host, p[..n - 4 - |h|], setup);
      }
    }
  }

  /** A handshake that is cut short anywhere fails for want of input; what it was told by then is the
      answer to the greeting and the credentials it had sent in full. */
  lemma {:induction false} HandshakeCutShort(
    methods: seq<byte>, username: seq<byte>, password: seq<byte>, host: Host, port: nat, n: nat, setup: Setup)
    requires |methods| <= 255 && 2 in methods && !(setup.allowNoAuth && 0 in methods)
    requires |username| <= 255 && |password| <= 255 && setup.utf8(username) && setup.utf8(password)
    requires setup.accepts(username, password) && UsableHost(host, setup) && port <= 65535
    requires n < |Greeting(methods)| + |Credentials(username, password)| + |Connect(host, port)|
    ensures var g, c := Greeting(methods), Credentials(username, password);
            Handshake((g + (c + Connect(host, port)))[..n], setup) ==
              Fail(Eof, if n < |g| then [] else if n < |g| + |c| then [5, 2] else [5, 2, 1, 0])
  {
    hide Handshake, Authenticate, ReadConnect, Greeting, Credentials, Connect;
    var g, c, q := Greeting(methods), Credentials(username, password), Connect(host, port);
    if n < |g| {
      assert (g + (c + q))[..n] == g[..n];
      GreetingCutShort(methods, n, setup);
    } else if n < |g| + |c| {
      assert (g + (c + q))[..n] == g + c[..n - |g|];
      CredentialsCutShort(username, password, n - |g|, setup);
      AuthenticationFails(methods, c[..n - |g|], setup);
    } else {
      var k := n - |g| - |c|;
      assert (g + (c + q))[..n] == g + (c + q[..k]);
      ConnectCutShort(host, port, k, setup);
      AfterCredentials(methods, username, password, q[..k], setup);
    }
  }

  lemma AuthenticationFails(methods: seq<byte>, input: seq<byte>, setup: Setup)
    requires |methods| <= 255 && 2 in methods && !(setup.allowNoAuth && 0 in methods)
    requires Authenticate(input, 2, setup) == Fail(Eof, [])
    ensures Handshake(Greeting(methods) + input, setup) == Fail(Eof, [5, 2])
  {
    hide Negotiate, Authenticate, ReadConnect, Greeting;
    NegotiateReads(methods, input, setup);
    assert [5, 2] + [] == [5, 2];
  }
}

/** client/client.go: the SOCKS5 front end, sections 3 to 6 of RFC 1928 and section 2 of RFC 1929. */
module Socks5 {
  import opened Bytes

  const VERSION: Byte := 5
  const AUTH_NONE: Byte := 0
  const AUTH_PASSWORD: Byte := 2
  const AUTH_NO_ACCEPTABLE: Byte := 0xFF
  const AUTH_PASSWORD_VERSION: Byte := 1
  const AUTH_SUCCESS: Byte := 0
  const AUTH_FAILURE: Byte := 1
  const CMD_CONNECT: Byte := 1
  const ADDR_IPV4: Byte := 1
  const ADDR_DOMAIN: Byte := 3
  const ADDR_IPV6: Byte := 4
  const REPLY_SUCCESS: Byte := 0
  const REPLY_COMMAND_NOT_SUPPORTED: Byte := 7
  const REPLY_ADDRESS_TYPE_NOT_SUPPORTED: Byte := 8

  datatype Auth = Auth(username: seq<Byte>, password: seq<Byte>)

  /** The address bytes of a request, by address type, and the port. */
  datatype Address = IPv4(ip: seq<Byte>) | Domain(name: seq<Byte>) | IPv6(ip: seq<Byte>)
  {
    predicate Valid() {
      match this
      case IPv4(ip) => |ip| == 4
      case Domain(name) => |name| <= 255
      case IPv6(ip) => |ip| == 16
    }
  }

  datatype Target = Target(address: Address, port: nat)
  {
    predicate Valid() {
      address.Valid() && port < 0x1_0000
    }
  }

  // ---------------------------------------------------------------- the messages, as the RFCs lay them out

  function Greeting(methods: seq<Byte>): seq<Byte>
    requires |methods| <= 255
  {
    [VERSION, |methods|] + methods
  }

  function Credentials(a: Auth): seq<Byte>
    requires |a.username| <= 255 && |a.password| <= 255
  {
    [AUTH_PASSWORD_VERSION, |a.username|] + a.username + [|a.password|] + a.password
  }

  function AddressField(a: Address): seq<Byte>
    requires a.Valid()
  {
    match a
    case IPv4(ip) => [ADDR_IPV4] + ip
    case Domain(name) => [ADDR_DOMAIN, |name|] + name
    case IPv6(ip) => [ADDR_IPV6] + ip
  }

  function Request(t: Target, reserved: Byte): seq<Byte>
    requires t.Valid()
  {
    [VERSION, CMD_CONNECT, reserved] + AddressField(t.address) + [t.port / 256, t.port % 256]
  }

  function Reply(code: Byte): seq<Byte> {
    [VERSION, code, 0, ADDR_IPV4, 0, 0, 0, 0, 0, 0]
  }

  /** The layouts, byte by byte. */
  lemma Layouts(t: Target, reserved: Byte, code: Byte)
    requires t.Valid()
    ensures Reply(code) == [5, code, 0, 1, 0, 0, 0, 0, 0, 0]
    ensures var q := Request(t, reserved);
            && |q| == 5 + |AddressField(t.address)| && q[0] == 5 && q[1] == 1 && q[2] == reserved
            && 256 * q[|q| - 2] as int + q[|q| - 1] as int == t.port
            && match t.address
               case IPv4(ip) => q[3] == 1 && q[4..8] == ip
               case Domain(name) => q[3] == 3 && q[4] == |name| && q[5..5 + |name|] == name
               case IPv6(ip) => q[3] == 4 && q[4..20] == ip
  {
    var q := Request(t, reserved);
    match t.address
    case IPv4(ip) => assert q[4..8] == ip;
    case Domain(name) => assert q[5..5 + |name|] == name;
    case IPv6(ip) => assert q[4..20] == ip;
  }

  // ---------------------------------------------------------------- the server side

  datatype Error = Eof | BadVersion | NotAcceptable | BadCredentials | BadCommand | BadAddressType | WriteFailed

  /** The client's connection: the bytes it will send and the bytes sent to it, unless writing to it fails. */
  class Conn {
    const deaf: bool
    var input: seq<Byte>
    var output: seq<Byte>

    constructor (input: seq<Byte>, deaf: bool)
      ensures this.input == input && output == [] && this.deaf == deaf
    {
      this.input, output, this.deaf := input, [], deaf;
    }

    /** io.ReadFull into buf[..k]. */
    method ReadFull(buf: array<Byte>, k: nat) returns (ok: bool)
      requires k <= buf.Length
      modifies this`input, buf
      ensures ok <==> k <= |old(input)|
      ensures ok ==> old(input) == buf[..k] + input
    {
      ok := k <= |input|;
      if ok {
        forall i | 0 <= i < k {
          buf[i] := input[i];
        }
        assert input == input[..k] + input[k..];
        assert buf[..k] == input[..k];
        input := input[k..];
      }
    }

    /** What of some bytes reaches the client. */
    function Heard(bytes: seq<Byte>): seq<Byte> {
      if deaf then [] else bytes
    }

    method Write(bytes: seq<Byte>) returns (ok: bool)
      modifies this`output
      ensures ok <==> !deaf
      ensures output == old(output) + Heard(bytes)
    {
      ok := !deaf;
      if ok {
        output := output + bytes;
      }
    }
  }

  /** The scan for a method among those offered. */
  method Offers(methods: seq<Byte>, wanted: Byte) returns (found: bool)
    ensures found <==> wanted in methods
  {
    found := false;
    for i := 0 to |methods|
      invariant !found && wanted !in methods[..i]
    {
      if methods[i] == wanted {
        found := true;
        break;
      }
    }
  }

  /** The input starts with this greeting, and after it comes the rest. */
  ghost predicate Greets(input: seq<Byte>, methods: seq<Byte>, rest: seq<Byte>) {
    |methods| <= 255 && input == Greeting(methods) + rest
  }

  /** An acceptable handshake: without credentials configured the no-authentication method is offered; with them the
      password method is offered and the client then presents exactly those credentials. */
  ghost predicate Admits(auth: Option<Auth>, methods: seq<Byte>, afterGreeting: seq<Byte>, rest: seq<Byte>) {
    match auth
    case None => AUTH_NONE in methods && rest == afterGreeting
    case Some(a) => AUTH_PASSWORD in methods && Presents(a, afterGreeting, rest)
  }

  ghost predicate Presents(a: Auth, input: seq<Byte>, rest: seq<Byte>) {
    |a.username| <= 255 && |a.password| <= 255 && input == Credentials(a) + rest
  }

  lemma GreetsShape(input: seq<Byte>, methods: seq<Byte>, rest: seq<Byte>)
    requires Greets(input, methods, rest)
    ensures |input| >= 2 && input[0] == VERSION && input[1] == |methods| && input[2..] == methods + rest
  {
  }

  lemma GreetsUnique(input: seq<Byte>, m1: seq<Byte>, r1: seq<Byte>, m2: seq<Byte>, r2: seq<Byte>)
    requires Greets(input, m1, r1) && Greets(input, m2, r2)
    ensures m1 == m2 && r1 == r2
  {
    GreetsShape(input, m1, r1);
    GreetsShape(input, m2, r2);
    var tail := input[2..];
    assert m1 == tail[..|m1|] == m2 && r1 == tail[|m1|..] == r2;
  }

  /** A message arrives, but not of this version of the protocol. */
  predicate WrongVersion(input: seq<Byte>, version: Byte) {
    |input| >= 2 && input[0] != version
  }

  /** The part of socks5Handshake that reads the offered methods. */
  method ReadGreeting(conn: Conn) returns (error: Option<Error>, methods: seq<Byte>)
    modifies conn`input
    ensures error.None? ==> Greets(old(conn.input), methods, conn.input)
    ensures error.Some? ==> forall ms, rest :: !Greets(old(conn.input), ms, rest)
    ensures error.Some? ==> error.value == if WrongVersion(old(conn.input), VERSION) then BadVersion else Eof
  {
    ghost var all := conn.input;
    forall ms, r | Greets(all, ms, r)
      ensures |all| >= 2 && all[0] == VERSION && |all| >= 2 + all[1] as int
    {
      GreetsShape(all, ms, r);
    }
    hide Greets;
    var buf := new Byte[257];
    var ok := conn.ReadFull(buf, 2);
    if !ok {
      return Some(Eof), [];
    }
    var ver, nmethods := buf[0], buf[1];
    assert buf[..2] == [ver, nmethods];
    if ver != VERSION {
      return Some(BadVersion), [];
    }
    ok := conn.ReadFull(buf, nmethods);
    if !ok {
      return Some(Eof), [];
    }
    methods := buf[..nmethods];
    error := None;
    MakeGreets(all, methods, conn.input);
  }

  lemma MakeGreets(input: seq<Byte>, methods: seq<Byte>, rest: seq<Byte>)
    requires |methods| <= 255 && input == [VERSION, |methods|] + (methods + rest)
    ensures Greets(input, methods, rest)
  {
    Assoc([VERSION, |methods|], methods, rest);
  }

  lemma PresentsShape(a: Auth, input: seq<Byte>, rest: seq<Byte>)
    requires Presents(a, input, rest)
    ensures var u, p := |a.username|, |a.password|;
            && |input| >= 3 + u + p
            && input[0] == AUTH_PASSWORD_VERSION && input[1] == u && input[2..2 + u] == a.username
            && input[2 + u] == p && input[3 + u..3 + u + p] == a.password && input[3 + u + p..] == rest
  {
  }

  lemma MakePresents(a: Auth, input: seq<Byte>, rest: seq<Byte>)
    requires |a.username| <= 255 && |a.password| <= 255
    requires input == [AUTH_PASSWORD_VERSION, |a.username|] + (a.username + ([|a.password|] + (a.password + rest)))
    ensures Presents(a, input, rest)
  {
  }

  lemma PresentsUnique(input: seq<Byte>, a: Auth, r: seq<Byte>, b: Auth, q: seq<Byte>)
    requires Presents(a, input, r) && Presents(b, input, q)
    ensures a == b && r == q
  {
    PresentsShape(a, input, r);
    PresentsShape(b, input, q);
  }

  /** The part of performPasswordAuth that reads the credentials. */
  method ReadCredentials(conn: Conn) returns (error: Option<Error>, given: Auth)
    modifies conn`input
    ensures error.None? ==> Presents(given, old(conn.input), conn.input)
    ensures error.Some? ==> forall a, rest :: !Presents(a, old(conn.input), rest)
    ensures error.Some? ==>
              error.value == if WrongVersion(old(conn.input), AUTH_PASSWORD_VERSION) then BadVersion else Eof
  {
    ghost var all := conn.input;
    forall a, rest | Presents(a, all, rest)
      ensures |all| >= 3 && all[0] == AUTH_PASSWORD_VERSION && |all| >= 3 + all[1] as int
      ensures |all| >= 3 + all[1] as int + all[2 + all[1] as int] as int
    {
      PresentsShape(a, all, rest);
    }
    hide Presents;
    given := Auth([], []);
    var buf := new Byte[513];
    var ok := conn.ReadFull(buf, 2);
    if !ok {
      return Some(Eof), given;
    }
    var ver, ulen := buf[0], buf[1];
    assert buf[..2] == [ver, ulen];
    if ver != AUTH_PASSWORD_VERSION {
      return Some(BadVersion), given;
    }
    ok := conn.ReadFull(buf, ulen);
    if !ok {
      return Some(Eof), given;
    }
    var username := buf[..ulen];
    ok := conn.ReadFull(buf, 1);
    if !ok {
      return Some(Eof), given;
    }
    var plen := buf[0];
    assert buf[..1] == [plen];
    ghost var tail := conn.input;
    assert all == [ver, ulen] + (username + ([plen] + tail));
    assert all[2 + |username|] == plen;
    ok := conn.ReadFull(buf, plen);
    if !ok {
      return Some(Eof), given;
    }
    given := Auth(username, buf[..plen]);
    error := None;
    MakePresents(given, all, conn.input);
  }

  /** The answer to credentials: a success, a failure, or none when they are not even readable. */
  function PasswordReply(error: Option<Error>): seq<Byte> {
    match error
    case None => [AUTH_PASSWORD_VERSION, AUTH_SUCCESS]
    case Some(BadCredentials) => [AUTH_PASSWORD_VERSION, AUTH_FAILURE]
    case _ => []
  }

  /** performPasswordAuth: succeeds exactly on the configured credentials. */
  method PerformPasswordAuth(conn: Conn, auth: Auth) returns (error: Option<Error>)
    modifies conn
    ensures error.None? ==> Presents(auth, old(conn.input), conn.input)
    ensures error.Some? ==> forall rest :: !Presents(auth, old(conn.input), rest)
    ensures error.Some? ==> (error.value == BadCredentials <==> exists a, rest :: Presents(a, old(conn.input), rest))
    ensures error.Some? ==> error.value in {BadCredentials, BadVersion, Eof}
    ensures conn.output == old(conn.output) + conn.Heard(PasswordReply(error))
  {
    hide Presents;
    ghost var all := conn.input;
    var given;
    error, given := ReadCredentials(conn);
    if error.Some? {
      assert conn.output + [] == conn.output;
      return;
    }
    if given == auth {
      var _ := conn.Write([AUTH_PASSWORD_VERSION, AUTH_SUCCESS]);
    } else {
      forall rest ensures !Presents(auth, all, rest) {
        if Presents(auth, all, rest) {
          PresentsUnique(all, auth, rest, given, conn.input);
          assert false;
        }
      }
      var _ := conn.Write([AUTH_PASSWORD_VERSION, AUTH_FAILURE]);
      error := Some(BadCredentials);
    }
  }

  /** socks5Handshake: succeeds exactly on an acceptable handshake, and consumes exactly that. */
  method Handshake(conn: Conn, auth: Option<Auth>)
      returns (error: Option<Error>, methods: seq<Byte>, ghost mid: seq<Byte>)
    modifies conn
    ensures error.None? ==> Greets(old(conn.input), methods, mid) && Admits(auth, methods, mid, conn.input)
    ensures error.Some? ==> forall ms, m, rest :: Greets(old(conn.input), ms, m) ==> !Admits(auth, ms, m, rest)
    ensures (exists ms, m :: Greets(old(conn.input), ms, m)) ==>
              && Greets(old(conn.input), methods, mid)
              && (error == Some(NotAcceptable) <==> Wanted(auth) !in methods)
              && conn.output == old(conn.output) + conn.Heard(HandshakeReply(auth, error))
    ensures (forall ms, m :: !Greets(old(conn.input), ms, m)) ==> error.Some? && conn.output == old(conn.output)
  {
    hide Greets, Presents;
    ghost var all := conn.input;
    error, methods := ReadGreeting(conn);
    mid := conn.input;
    if error.Some? {
      return;
    }
    var wanted := Wanted(auth);
    var offered := Offers(methods, wanted);
    if !offered {
      var _ := conn.Write([VERSION, AUTH_NO_ACCEPTABLE]);
      error := Some(NotAcceptable);
    } else {
      var _ := conn.Write([VERSION, wanted]);
      assert [VERSION, wanted] + [] == [VERSION, wanted];
      if auth.Some? {
        assert conn.input == mid;
        error := PerformPasswordAuth(conn, auth.value);
        assert error != Some(NotAcceptable);
        Assoc(old(conn.output), conn.Heard([VERSION, wanted]), conn.Heard(PasswordReply(error)));
        assert error.Some? ==> forall rest :: !Presents(auth.value, mid, rest);
      }
    }
    if error.Some? {
      assert forall rest :: !Admits(auth, methods, mid, rest);
      forall ms, m, rest | Greets(all, ms, m) ensures !Admits(auth, ms, m, rest) {
        GreetsUnique(all, ms, m, methods, mid);
      }
    }
  }

  /** The method the server insists on. */
  function Wanted(auth: Option<Auth>): Byte {
    if auth.Some? then AUTH_PASSWORD else AUTH_NONE
  }

  /** The replies to a greeting and what follows it. */
  function HandshakeReply(auth: Option<Auth>, error: Option<Error>): seq<Byte> {
    if error == Some(NotAcceptable) then [VERSION, AUTH_NO_ACCEPTABLE]
    else [VERSION, Wanted(auth)] + if auth.Some? then PasswordReply(error) else []
  }

  // ---------------------------------------------------------------- the request

  ghost predicate Names(atyp: Byte, input: seq<Byte>, a: Address, rest: seq<Byte>) {
    a.Valid() && [atyp] + input == AddressField(a) + rest
  }

  lemma NamesShape(atyp: Byte, input: seq<Byte>, a: Address, rest: seq<Byte>)
    requires Names(atyp, input, a, rest)
    ensures match a
            case IPv4(ip) => atyp == ADDR_IPV4 && input == ip + rest
            case IPv6(ip) => atyp == ADDR_IPV6 && input == ip + rest
            case Domain(name) => atyp == ADDR_DOMAIN && input == [|name|] + name + rest
  {
    match a
    case IPv4(ip) =>
      Assoc([ADDR_IPV4], ip, rest);
      SameHead(atyp, input, ADDR_IPV4, ip + rest);
    case IPv6(ip) =>
      Assoc([ADDR_IPV6], ip, rest);
      SameHead(atyp, input, ADDR_IPV6, ip + rest);
    case Domain(name) =>
      assert AddressField(a) + rest == [ADDR_DOMAIN] + ([|name|] + name + rest);
      SameHead(atyp, input, ADDR_DOMAIN, [|name|] + name + rest);
  }

  lemma SameHead(x: Byte, a: seq<Byte>, y: Byte, b: seq<Byte>)
    requires [x] + a == [y] + b
    ensures x == y && a == b
  {
    assert ([x] + a)[0] == x && ([x] + a)[1..] == a;
    assert ([y] + b)[0] == y && ([y] + b)[1..] == b;
  }

  lemma MakeNames(input: seq<Byte>, a: Address, rest: seq<Byte>)
    requires a.Valid()
    requires input == (if a.Domain? then [|a.name|] + (a.name + rest) else a.ip + rest)
    ensures Names(AddressField(a)[0], input, a, rest)
  {
    match a
    case IPv4(ip) => Assoc([ADDR_IPV4], ip, rest);
    case IPv6(ip) => Assoc([ADDR_IPV6], ip, rest);
    case Domain(name) =>
      Assoc([ADDR_DOMAIN, |name|], name, rest);
      assert [ADDR_DOMAIN] + ([|name|] + (name + rest)) == [ADDR_DOMAIN, |name|] + (name + rest);
  }

  /** The address of a request, after its type has been read. */
  method ReadAddress(conn: Conn, atyp: Byte) returns (error: Option<Error>, address: Address)
    modifies conn
    ensures error.None? ==> Names(atyp, old(conn.input), address, conn.input)
    ensures error.Some? ==> forall a, rest :: !Names(atyp, old(conn.input), a, rest)
    ensures error.Some? ==> error.value == if atyp in {ADDR_IPV4, ADDR_DOMAIN, ADDR_IPV6} then Eof else BadAddressType
    ensures conn.output == old(conn.output)
                           + if error == Some(BadAddressType) then conn.Heard(Reply(REPLY_ADDRESS_TYPE_NOT_SUPPORTED))
                             else []
  {
    ghost var all := conn.input;
    forall a, rest | Names(atyp, all, a, rest)
      ensures match a
              case IPv4(ip) => atyp == ADDR_IPV4 && |all| >= 4
              case IPv6(ip) => atyp == ADDR_IPV6 && |all| >= 16
              case Domain(name) => atyp == ADDR_DOMAIN && |all| >= 1 && |all| >= 1 + all[0] as int
    {
      NamesShape(atyp, all, a, rest);
    }
    hide Names;
    assert conn.output + [] == conn.output;
    address := Domain([]);
    error := Some(Eof);
    if atyp == ADDR_IPV4 || atyp == ADDR_IPV6 {
      var ip := new Byte[if atyp == ADDR_IPV4 then 4 else 16];
      var ok := conn.ReadFull(ip, ip.Length);
      if ok {
        address, error := if atyp == ADDR_IPV4 then IPv4(ip[..]) else IPv6(ip[..]), None;
        assert ip[..] == ip[..ip.Length];
        MakeNames(all, address, conn.input);
      }
    } else if atyp == ADDR_DOMAIN {
      var domainLen := new Byte[1];
      var ok := conn.ReadFull(domainLen, 1);
      if ok {
        var n := domainLen[0];
        assert domainLen[..1] == [n];
        var domain := new Byte[n];
        ok := conn.ReadFull(domain, domain.Length);
        if ok {
          address, error := Domain(domain[..]), None;
          assert domain[..] == domain[..domain.Length];
          MakeNames(all, address, conn.input);
        }
      }
    } else {
      var _ := conn.Write(Reply(REPLY_ADDRESS_TYPE_NOT_SUPPORTED));
      error := Some(BadAddressType);
    }
  }

  /** The input starts with a CONNECT request for this target, and after it comes the rest. */
  ghost predicate Asks(input: seq<Byte>, t: Target, reserved: Byte, rest: seq<Byte>) {
    t.Valid() && input == Request(t, reserved) + rest
  }

  function PortField(port: nat): seq<Byte>
    requires port < 0x1_0000
  {
    [port / 256, port % 256]
  }

  lemma AsksShape(input: seq<Byte>, t: Target, reserved: Byte, rest: seq<Byte>)
    requires Asks(input, t, reserved, rest)
    ensures |input| >= 4 && input[0] == VERSION && input[1] == CMD_CONNECT
    ensures Names(input[3], input[4..], t.address, PortField(t.port) + rest)
  {
    var field, port := AddressField(t.address), PortField(t.port);
    assert Request(t, reserved) == [VERSION, CMD_CONNECT, reserved] + field + port;
    Assoc([VERSION, CMD_CONNECT, reserved] + field, port, rest);
    Assoc([VERSION, CMD_CONNECT, reserved], field, port + rest);
    assert input == [VERSION, CMD_CONNECT, reserved] + (field + (port + rest));
    assert input[3..] == field + (port + rest);
    assert input[3..] == [input[3]] + input[4..];
  }

  lemma MakeAsks(input: seq<Byte>, reserved: Byte, atyp: Byte, tail: seq<Byte>, t: Target, rest: seq<Byte>)
    requires t.port < 0x1_0000 && input == [VERSION, CMD_CONNECT, reserved, atyp] + tail
    requires Names(atyp, tail, t.address, PortField(t.port) + rest)
    ensures Asks(input, t, reserved, rest)
  {
    var field, port := AddressField(t.address), PortField(t.port);
    assert [VERSION, CMD_CONNECT, reserved, atyp] == [VERSION, CMD_CONNECT, reserved] + [atyp];
    Assoc([VERSION, CMD_CONNECT, reserved], [atyp], tail);
    Assoc([VERSION, CMD_CONNECT, reserved], field, port + rest);
    Assoc([VERSION, CMD_CONNECT, reserved] + field, port, rest);
    assert Request(t, reserved) == [VERSION, CMD_CONNECT, reserved] + field + port;
  }

  lemma NamesUnique(atyp: Byte, input: seq<Byte>, a: Address, r: seq<Byte>, b: Address, q: seq<Byte>)
    requires Names(atyp, input, a, r) && Names(atyp, input, b, q)
    ensures a == b && r == q
  {
    NamesShape(atyp, input, a, r);
    NamesShape(atyp, input, b, q);
    match a
    case IPv4(ip) =>
      assert ip == input[..4] == b.ip && r == input[4..] == q;
    case IPv6(ip) =>
      assert ip == input[..16] == b.ip && r == input[16..] == q;
    case Domain(name) =>
      assert |name| == input[0] == |b.name|;
      assert name == input[1..1 + |name|] == b.name && r == input[1 + |name|..] == q;
  }

  /** The answer to a request. */
  function RequestReply(error: Option<Error>): seq<Byte> {
    match error
    case None => Reply(REPLY_SUCCESS)
    case Some(BadCommand) => Reply(REPLY_COMMAND_NOT_SUPPORTED)
    case Some(BadAddressType) => Reply(REPLY_ADDRESS_TYPE_NOT_SUPPORTED)
    case _ => []
  }

  /** socks5ProcessRequest: succeeds exactly on a CONNECT request (and a client that takes the reply), consumes exactly
      that, and yields the address bytes and the port it encodes. */
  method ProcessRequest(conn: Conn) returns (error: Option<Error>, target: Target, reserved: Byte)
    modifies conn
    ensures error.None? ==> Asks(old(conn.input), target, reserved, conn.input)
    ensures error.None? ==> !conn.deaf
    ensures error.Some? && !conn.deaf ==> forall t, r, rest :: !Asks(old(conn.input), t, r, rest)
    ensures error == Some(BadVersion) <==> |old(conn.input)| >= 4 && old(conn.input)[0] != VERSION
    ensures error == Some(BadCommand) <==>
              |old(conn.input)| >= 4 && old(conn.input)[0] == VERSION && old(conn.input)[1] != CMD_CONNECT
    ensures conn.output == old(conn.output) + conn.Heard(RequestReply(error))
  {
    ghost var all := conn.input;
    target, reserved := Target(Domain([]), 0), 0;
    var buf := new Byte[4];
    var ok := conn.ReadFull(buf, 4);
    ghost var tail := conn.input;
    forall t, r, rest | Asks(all, t, r, rest)
      ensures |all| >= 4 && all[0] == VERSION && all[1] == CMD_CONNECT
      ensures Names(all[3], all[4..], t.address, PortField(t.port) + rest)
    {
      AsksShape(all, t, r, rest);
    }
    hide Asks, Names;
    assert conn.output + [] == conn.output;
    if !ok {
      return Some(Eof), target, 0;
    }
    var ver, cmd, atyp := buf[0], buf[1], buf[3];
    reserved := buf[2];
    assert buf[..4] == [ver, cmd, reserved, atyp];
    assert all[4..] == tail && all[0] == ver && all[1] == cmd && all[3] == atyp;
    if ver != VERSION {
      return Some(BadVersion), target, reserved;
    }
    if cmd != CMD_CONNECT {
      var _ := conn.Write(Reply(REPLY_COMMAND_NOT_SUPPORTED));
      return Some(BadCommand), target, reserved;
    }
    var address;
    error, address := ReadAddress(conn, atyp);
    if error.Some? {
      return;
    }
    ghost var afterAddress := conn.input;
    var portBuf := new Byte[2];
    ok := conn.ReadFull(portBuf, 2);
    if !ok {
      forall t, r, rest ensures !Asks(all, t, r, rest) {
        if Asks(all, t, r, rest) {
          NamesUnique(atyp, tail, t.address, PortField(t.port) + rest, address, afterAddress);
          assert false;
        }
      }
      return Some(Eof), target, reserved;
    }
    var port: nat := portBuf[0] as int * 256 + portBuf[1];
    assert portBuf[..2] == PortField(port);
    target := Target(address, port);
    MakeAsks(all, reserved, atyp, tail, target, conn.input);
    ok := conn.Write(Reply(REPLY_SUCCESS));
    error := if ok then None else Some(WriteFailed);
  }

  /** A whole session before the relay starts: handshake, then request. A client that speaks the protocol and is
      admitted is served with the target it asked for, its payload untouched; nobody else is. */
  method Serve(conn: Conn, auth: Option<Auth>) returns (target: Option<Target>, methods: seq<Byte>, reserved: Byte,
                                                       ghost mid: seq<Byte>, ghost request: seq<Byte>)
    modifies conn
    ensures target.Some? ==>
              && Greets(old(conn.input), methods, mid)
              && Admits(auth, methods, mid, request)
              && Asks(request, target.value, reserved, conn.input)
    ensures target.Some? ==>
              !conn.deaf && conn.output == old(conn.output) + HandshakeReply(auth, None) + RequestReply(None)
    ensures target.None? && !conn.deaf ==> forall ms, m, q, t, r, payload ::
              Greets(old(conn.input), ms, m) && Admits(auth, ms, m, q) ==> !Asks(q, t, r, payload)
  {
    hide Greets, Admits, Asks;
    ghost var all := conn.input;
    var error;
    reserved := 0;
    error, methods, mid := Handshake(conn, auth);
    request := conn.input;
    if error.Some? {
      return None, methods, 0, mid, request;
    }
    var t;
    error, t, reserved := ProcessRequest(conn);
    target := if error.None? then Some(t) else None;
    if error.Some? && !conn.deaf {
      forall ms, m, q, t, r, payload | Greets(all, ms, m) && Admits(auth, ms, m, q) ensures !Asks(q, t, r, payload) {
        GreetsUnique(all, ms, m, methods, mid);
        AdmitsUnique(auth, methods, mid, q, request);
      }
    }
  }

  lemma AdmitsUnique(auth: Option<Auth>, methods: seq<Byte>, mid: seq<Byte>, q: seq<Byte>, p: seq<Byte>)
    requires Admits(auth, methods, mid, q) && Admits(auth, methods, mid, p)
    ensures q == p
  {
    if auth.Some? {
      PresentsShape(auth.value, mid, q);
      PresentsShape(auth.value, mid, p);
    }
  }
}

/**
 The client side of SOCKS5 (RFC 1928) with user name and password (RFC 1929): what is sent to the
 proxy, which replies are accepted and how many bytes of them are read.  The target arrives split
 into host and port, with addresses in binary; texts are bytes.
 */
module Socks {
  import opened Outcomes

  type Byte = n: int | 0 <= n < 256

  type Bytes = seq<Byte>

  datatype Host = V4(bytes: Bytes) | V6(bytes: Bytes) | Name(bytes: Bytes)

  datatype Target = Target(host: Host, port: int)

  datatype Login = Login(username: Bytes, password: Bytes)

  /***** What the client sends *****/

  predicate IsAddress(h: Host) {
    (h.V4? ==> |h.bytes| == 4) && (h.V6? ==> |h.bytes| == 16)
  }

  function Greeting(login: Login): Bytes {
    if login.username != [] || login.password != [] then [5, 1, 2] else [5, 1, 0]
  }

  predicate Fits(login: Login) {
    |login.username| <= 255 && |login.password| <= 255
  }

  function Credentials(login: Login): Bytes
    requires Fits(login)
  {
    [1, |login.username|] + login.username + [|login.password|] + login.password
  }

  predicate Reachable(t: Target) {
    1 <= t.port <= 65535 && (t.host.Name? ==> 1 <= |t.host.bytes| <= 255)
  }

  function AddressBytes(h: Host): Bytes
    requires IsAddress(h) && (h.Name? ==> |h.bytes| <= 255)
  {
    match h
    case V4(b) => [1] + b
    case V6(b) => [4] + b
    case Name(b) => [3, |b|] + b
  }

  function Request(t: Target): Bytes
    requires IsAddress(t.host) && Reachable(t)
  {
    [5, 1, 0] + AddressBytes(t.host) + [t.port / 256, t.port % 256]
  }

  /***** A reader written from the standards *****/

  function At(b: Bytes, i: nat): nat
    requires i < |b|
  {
    b[i]
  }

  /** Section 3 of RFC 1928: version, number of methods, methods; the rest follows. */
  function ReadGreeting(b: Bytes): Option<(Bytes, Bytes)> {
    if |b| < 2 || b[0] != 5 || |b| < 2 + At(b, 1) then None else Some((b[2..2 + At(b, 1)], b[2 + At(b, 1)..]))
  }

  /** Section 2 of RFC 1929: version 1, then user name and password, each after its length. */
  function ReadCredentials(b: Bytes): Option<(Login, Bytes)> {
    if |b| < 2 || b[0] != 1 || |b| < 2 + At(b, 1) + 1 then None
    else
      var n := 2 + At(b, 1);
      var end := n + 1 + At(b, n);
      if |b| < end then None else Some((Login(b[2..n], b[n + 1..end]), b[end..]))
  }

  /** Section 4 of RFC 1928: a CONNECT request, with the address as in section 5 and a two-byte port. */
  function ReadRequest(b: Bytes): Option<(Target, Bytes)> {
    if |b| < 5 || b[0] != 5 || b[1] != 1 || b[2] != 0 || (b[3] != 1 && b[3] != 3 && b[3] != 4) then None
    else
      var start := if b[3] == 3 then 5 else 4;
      var length := if b[3] == 1 then 4 else if b[3] == 4 then 16 else At(b, 4);
      var n := start + length;
      if |b| < n + 2 then None
      else
        var a := b[start..n];
        Some((Target(if b[3] == 1 then V4(a) else if b[3] == 4 then V6(a) else Name(a),
                      At(b, n) * 256 + At(b, n + 1)), b[n + 2..]))
  }

  lemma GreetingIsRead(login: Login, rest: Bytes)
    ensures ReadGreeting(Greeting(login) + rest) == Some(([if login.username != [] ||
                                                           login.password != [] then 2 else 0], rest))
  {
    var b := Greeting(login) + rest;
    assert b[2..3] == [b[2]] && b[3..] == rest;
  }

  lemma CredentialsAreRead(login: Login, rest: Bytes)
    requires Fits(login)
    ensures ReadCredentials(Credentials(login) + rest) == Some((login, rest))
  {
    var b := Credentials(login) + rest;
    var n := 2 + |login.username|;
    assert b == [1, |login.username|] + login.username + ([|login.password|] + login.password + rest);
    assert b[0] == 1 && b[1] == |login.username|;
    assert b[2..n] == login.username;
    assert b[n..] == [|login.password|] + login.password + rest;
    assert b[n] == b[n..][0] == |login.password|;
    var k := |login.password|;
    assert b[n + 1..n + 1 + k] == b[n..][1..1 + k] == login.password;
    assert b[n + 1 + k..] == b[n..][1 + k..] == rest;
  }

  lemma RequestIsRead(t: Target, rest: Bytes)
    requires IsAddress(t.host) && Reachable(t)
    ensures ReadRequest(Request(t) + rest) == Some((t, rest))
  {
    var b := Request(t) + rest;
    var a := t.host.bytes;
    var start := if t.host.Name? then 5 else 4;
    var n := start + |a|;
    var head: Bytes := if t.host.Name? then [5, 1, 0, 3, |a|] else if t.host.V4? then [5, 1, 0, 1] else [5, 1, 0, 4];
    assert b == head + a + ([t.port / 256, t.port % 256] + rest);
    assert b[..start] == head;
    assert b[3] == head[3] && (t.host.Name? ==> b[4] == |a|);
    assert b[start..n] == a;
    assert b[n..] == [t.port / 256, t.port % 256] + rest;
    assert b[n] == b[n..][0] && b[n + 1] == b[n..][1];
    assert b[n + 2..] == b[n..][2..] == rest;
  }

  /** What a proxy that selected authentication, or did not, makes of everything the client sent. */
  function ReadAll(b: Bytes, authenticated: bool): Option<(Bytes, Option<Login>, Target)> {
    match ReadGreeting(b)
    case None => None
    case Some((methods, b1)) =>
      var login := if authenticated then ReadCredentials(b1) else None;
      if authenticated && login.None? then None
      else
        match ReadRequest(if authenticated then login.value.1 else b1)
        case None => None
        case Some((target, b2)) => if b2 == []
          then Some((methods, if authenticated then Some(login.value.0) else None, target)) else None
  }

  /***** Which replies are accepted *****/

  /** The proxy asks for user name and password. */
  predicate AsksLogin(replies: Bytes) {
    |replies| >= 2 && replies[1] == 2
  }

  /** Where the connect reply starts, if everything before it is as it should be. */
  function ConnectReplyAt(replies: Bytes): Option<nat> {
    if |replies| < 2 || replies[0] != 5 then None
    else if replies[1] == 0 then Some(2)
    else if replies[1] == 2 && |replies| >= 4 && replies[2] == 1 && replies[3] == 0 then Some(4)
    else None
  }

  /** Section 6 of RFC 1928: the length of a reply, by the type of its address. */
  function ReplyLength(b: Bytes): Option<nat> {
    if |b| < 4 then None
    else if b[3] == 1 then Some(10)
    else if b[3] == 4 then Some(22)
    else if b[3] == 3 && |b| >= 5 then Some(7 + At(b, 4))
    else None
  }

  /** How many bytes one method reply, an authentication reply if asked for, and one connect reply take. */
  function Accepted(replies: Bytes): Option<nat> {
    var at := ConnectReplyAt(replies);
    if at.None? || |replies| < at.value + 4 || replies[at.value] != 5 || replies[at.value + 1] != 0 then None
    else
      var length := ReplyLength(replies[at.value..]);
      if length.None? || |replies| < at.value + length.value then None else Some(at.value + length.value)
  }

  /** What is sent before the request. */
  function Opening(login: Login, authenticated: bool): Bytes
    requires authenticated ==> Fits(login)
  {
    Greeting(login) + if authenticated then Credentials(login) else []
  }

  /** Everything that is sent when nothing goes wrong. */
  function Conversation(login: Login, t: Target, authenticated: bool): Bytes
    requires IsAddress(t.host) && Reachable(t) && (authenticated ==> Fits(login))
  {
    Opening(login, authenticated) + Request(t)
  }

  /** The whole conversation, read by the standards, says what the client wanted. */
  lemma ConversationIsRead(login: Login, t: Target, authenticated: bool)
    requires IsAddress(t.host) && Reachable(t) && (authenticated ==> Fits(login))
    ensures ReadAll(Conversation(login, t, authenticated), authenticated) ==
            Some(([if login.username != [] ||
                   login.password != [] then 2 else 0], if authenticated then Some(login) else None, t))
  {
    hide ReadGreeting, ReadCredentials, ReadRequest, Greeting, Credentials, Request;
    var auth := if authenticated then Credentials(login) else [];
    assert Conversation(login, t, authenticated) == Greeting(login) + (auth + Request(t));
    GreetingIsRead(login, auth + Request(t));
    assert !authenticated ==> auth + Request(t) == Request(t);
    if authenticated {
      CredentialsAreRead(login, Request(t));
    }
    assert Request(t) + [] == Request(t);
    RequestIsRead(t, []);
  }

  /***** The client *****/

  datatype Error = WriteFailed | ReadFailed | MethodRejected | TooLong |
                   LoginRejected | BadTarget | ConnectRejected | BadAddressType

  /** `input` is what the proxy will ever send; so many writes go through. */
  class Conn {
    const input: Bytes
    var consumed: nat
    var sent: Bytes
    var writable: nat

    constructor (input: Bytes, writable: nat)
      ensures this.input == input && this.writable == writable && consumed == 0 && sent == []
    {
      this.input, this.writable, consumed, sent := input, writable, 0, [];
    }

    method Write(b: Bytes) returns (ok: bool)
      modifies this`sent, this`writable
      ensures ok <==> old(writable) > 0
      ensures sent == (if ok then old(sent) + b else old(sent)) && writable == if ok then old(writable) - 1 else 0
    {
      ok := writable > 0;
      if ok {
        sent, writable := sent + b, writable - 1;
      }
    }

    /** All the bytes asked for, or a failure after what there is. */
    method ReadFull(n: nat) returns (r: Result<Bytes, Error>)
      requires consumed <= |input|
      modifies this`consumed
      ensures r.Ok? <==> old(consumed) + n <= |input|
      ensures r.Ok? ==> consumed == old(consumed) + n && r.value == input[old(consumed)..consumed]
      ensures r.Err? ==> consumed == |input| && r == Err(ReadFailed)
    {
      if consumed + n > |input| {
        consumed := |input|;
        return Err(ReadFailed);
      }
      r := Ok(input[consumed..consumed + n]);
      consumed := consumed + n;
    }
  }

  method Authenticate(conn: Conn, login: Login) returns (r: Result<(), Error>)
    requires conn.consumed <= |conn.input|
    modifies conn
    ensures conn.consumed <= |conn.input|
    ensures r.Ok? <==> Fits(login) && old(conn.writable) > 0 && old(conn.consumed) + 2 <= |conn.input| &&
                       conn.input[old(conn.consumed)] == 1 && conn.input[old(conn.consumed) + 1] == 0
    ensures r.Ok? ==> conn.consumed == old(conn.consumed) + 2 && conn.sent == old(conn.sent) + Credentials(login) &&
                      conn.writable == old(conn.writable) - 1
    ensures conn.sent == old(conn.sent) || (Fits(login) && conn.sent == old(conn.sent) + Credentials(login))
  {
    if |login.username| > 255 || |login.password| > 255 {
      return Err(TooLong);
    }
    var request: Bytes := [1, |login.username|];
    request := request + login.username;
    request := request + [|login.password|];
    request := request + login.password;
    var written := conn.Write(request);
    if !written {
      return Err(WriteFailed);
    }
    var response := conn.ReadFull(2);
    if response.Err? {
      return Err(response.error);
    }
    if response.value[0] != 1 || response.value[1] != 0 {
      return Err(LoginRejected);
    }
    return Ok(());
  }

  /** The bound address and port of the reply, whatever its type. */
  method DiscardSOCKSAddress(conn: Conn, addressType: Byte) returns (r: Result<(), Error>)
    requires 4 <= conn.consumed <= |conn.input| && conn.input[conn.consumed - 1] == addressType
    modifies conn`consumed
    ensures conn.consumed <= |conn.input|
    ensures var length := ReplyLength(conn.input[old(conn.consumed) - 4..]);
      (r.Ok? <==> length.Some? && old(conn.consumed) - 4 + length.value <= |conn.input|) &&
      (r.Ok? ==> conn.consumed == old(conn.consumed) - 4 + length.value)
  {
    ghost var b := conn.input[conn.consumed - 4..];
    assert b[3] == addressType;
    var length: nat := 0;
    if addressType == 1 {
      length := 4;
    } else if addressType == 4 {
      length := 16;
    } else if addressType == 3 {
      var buffer := conn.ReadFull(1);
      if buffer.Err? {
        return Err(buffer.error);
      }
      assert b[4] == buffer.value[0];
      length := buffer.value[0];
    } else {
      return Err(BadAddressType);
    }
    var rest := conn.ReadFull(length + 2);
    if rest.Err? {
      return Err(rest.error);
    }
    return Ok(());
  }

  /** The methods are settled, and the login done if the proxy asks for it. */
  method Greet(conn: Conn, login: Login) returns (r: Result<(), Error>)
    requires conn.consumed == 0 && conn.sent == []
    modifies conn
    ensures conn.consumed <= |conn.input|
    ensures r.Ok? <==> ConnectReplyAt(conn.input).Some? && (AsksLogin(conn.input) ==> Fits(login)) &&
                       old(conn.writable) >= if AsksLogin(conn.input) then 2 else 1
    ensures r.Ok? ==> Some(conn.consumed) == ConnectReplyAt(conn.input) &&
                      conn.sent == Opening(login, AsksLogin(conn.input)) &&
                      conn.writable == old(conn.writable) - if AsksLogin(conn.input) then 2 else 1
    ensures conn.sent == [] || conn.sent == Greeting(login) ||
            (AsksLogin(conn.input) && Fits(login) && conn.sent == Opening(login, true))
  {
    hide Credentials, Greeting;
    var greeted := conn.Write(Greeting(login));
    if !greeted {
      return Err(WriteFailed);
    }
    var response := conn.ReadFull(2);
    if response.Err? {
      return Err(response.error);
    }
    assert response.value[0] == conn.input[0] && response.value[1] == conn.input[1];
    if response.value[0] != 5 || response.value[1] == 255 {
      return Err(MethodRejected);
    }
    if response.value[1] == 2 {
      r := Authenticate(conn, login);
      return;
    }
    if response.value[1] != 0 {
      return Err(MethodRejected);
    }
    return Ok(());
  }

  method ConnectRequest(target: Option<Target>) returns (r: Result<Bytes, Error>)
    requires target.Some? ==> IsAddress(target.value.host)
    ensures r == if target.Some? && Reachable(target.value) then Ok(Request(target.value)) else Err(BadTarget)
  {
    if target.None? || target.value.port < 1 || target.value.port > 65535 {
      return Err(BadTarget);
    }
    var request: Bytes := [5, 1, 0];
    match target.value.host {
      case V4(b) => request := request + ([1] + b);
      case V6(b) => request := request + ([4] + b);
      case Name(b) =>
        if |b| == 0 || |b| > 255 {
          return Err(BadTarget);
        }
        request := request + ([3, |b|] + b);
    }
    return Ok(request + [target.value.port / 256, target.value.port % 256]);
  }

  /**
   `target` is missing if the address could not be split.  It succeeds exactly when all replies are
   well formed and positive, the target is within bounds and nothing fails on the way; then exactly the
   replies have been read and exactly the conversation sent.
   */
  method Negotiate(conn: Conn, login: Login, target: Option<Target>) returns (r: Result<(), Error>)
    requires conn.consumed == 0 && conn.sent == [] && (target.Some? ==> IsAddress(target.value.host))
    modifies conn
    ensures r.Ok? <==> Accepted(conn.input).Some? && target.Some? && Reachable(target.value) &&
                       (AsksLogin(conn.input) ==> Fits(login)) &&
                        old(conn.writable) >= if AsksLogin(conn.input) then 3 else 2
    ensures r.Ok? ==> conn.consumed == Accepted(conn.input).value &&
                      conn.sent == Conversation(login, target.value, AsksLogin(conn.input))
    // Nothing is sent but a beginning of the conversation; a bad target shows only after the methods are settled.
    ensures conn.sent == [] || conn.sent == Greeting(login) ||
            ((AsksLogin(conn.input) ==> Fits(login)) && conn.sent == Opening(login, AsksLogin(conn.input))) ||
            (target.Some? && Reachable(target.value) && (AsksLogin(conn.input) ==> Fits(login)) &&
             conn.sent == Conversation(login, target.value, AsksLogin(conn.input)))
  {
    hide ReplyLength, Opening, Request, Greeting, Reachable;
    r := Greet(conn, login);
    if r.Err? {
      return;
    }
    ghost var at := conn.consumed;
    var request := ConnectRequest(target);
    if request.Err? {
      return Err(request.error);
    }
    var requested := conn.Write(request.value);
    if !requested {
      return Err(WriteFailed);
    }
    var header := conn.ReadFull(4);
    if header.Err? {
      return Err(header.error);
    }
    assert header.value[0] == conn.input[at] && header.value[1] == conn.input[at + 1];
    if header.value[0] != 5 || header.value[1] != 0 {
      return Err(ConnectRejected);
    }
    r := DiscardSOCKSAddress(conn, header.value[3]);
  }
}

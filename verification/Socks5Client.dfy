/** lib/core/socks5-client.js: the SOCKS5 negotiation, with replies that arrive in any pieces, against
sections 3 and 6 of RFC 1928. */
module Socks5Client {
  import opened Socks5Address
  import opened Wrappers

  const SOCKS_VERSION: Byte := 5
  const NO_AUTH: Byte := 0
  const USERNAME_PASSWORD: Byte := 2
  const NO_ACCEPTABLE: Byte := 0xFF
  const CONNECT: Byte := 1
  const SUCCEEDED: Byte := 0

  datatype State = Initial | Handshaking | Authenticating | Authenticated | Connecting | Connected | Failed | Closed

  datatype Error =
    | Version | AuthRejected | AuthMethod | NoCredentials | CredentialsTooLong | AuthVersion | AuthFailed
    | ReplyVersion | AddressType | Reply(code: Byte)

  datatype Event = BecameAuthenticated | BecameConnected(address: Address, port: nat) | Errored(error: Error) | BecameClosed

  /** What the bytes received so far make of the CONNECT request. */
  datatype Decision = Undecided | Refused(error: Error) | Accepted(address: Address, port: nat)

  /** How long a reply with this address type is; none while that cannot be told. */
  function ReplyLength(buffer: seq<Byte>): Option<nat>
    requires |buffer| >= 4 && buffer[3] in {1, 3, 4}
  {
    if buffer[3] == 1 then Some(10)
    else if buffer[3] == 4 then Some(22)
    else if |buffer| < 5 then None
    else Some(7 + buffer[4] as int)
  }

  function U16(high: Byte, low: Byte): (n: nat)
    ensures n <= 0xFFFF
  {
    256 * high as int + low as int
  }

  function Decide(buffer: seq<Byte>): Decision {
    if |buffer| < 4 then Undecided
    else if buffer[0] != SOCKS_VERSION then Refused(ReplyVersion)
    else if buffer[3] !in {1, 3, 4} then Refused(AddressType)
    else
      var length := ReplyLength(buffer);
      if length.None? || |buffer| < length.value then Undecided
      else if buffer[1] != SUCCEEDED then Refused(Reply(buffer[1]))
      else
        var end := length.value;
        Accepted(AddressOf(buffer[3], buffer[4..end - 2]), U16(buffer[end - 2], buffer[end - 1]))
  }

  /** A reply of section 6 of RFC 1928, and the bytes that follow it. */
  ghost predicate IsReply(buffer: seq<Byte>, end: int) {
    |buffer| >= 4 && buffer[0] == 5 && AddressAt(buffer, 3, end)
  }

  /** A whole reply decides, whatever follows it; its last two bytes are the port, the high one first. */
  lemma ReplyDecides(buffer: seq<Byte>, end: int)
    requires IsReply(buffer, end)
    ensures Decide(buffer) ==
            if buffer[1] != 0 then Refused(Reply(buffer[1]))
            else Accepted(AddressOf(buffer[3], buffer[4..end - 2]), 256 * buffer[end - 2] as int + buffer[end - 1] as int)
  {
    var field := buffer[4..end - 2];
    assert buffer[3] == 3 ==> field[0] == buffer[4];
    assert ReplyLength(buffer) == Some(end as nat);
  }

  /** The request is granted or refused exactly by a whole reply that says so, and stays open exactly while what has
      arrived can still become one. */
  lemma DecidedByReply(buffer: seq<Byte>)
    ensures Decide(buffer).Accepted? <==> (exists end :: IsReply(buffer, end)) && buffer[1] == 0
    ensures forall code :: Decide(buffer) == Refused(Reply(code)) <==>
              code != 0 && |buffer| >= 2 && buffer[1] == code && exists end :: IsReply(buffer, end)
    ensures Decide(buffer).Undecided? <==>
              (|buffer| < 4 || (buffer[0] == 5 && buffer[3] in {1, 3, 4})) && forall end :: !IsReply(buffer, end)
  {
    if |buffer| >= 4 && buffer[0] == SOCKS_VERSION && buffer[3] in {1, 3, 4} {
      var length := ReplyLength(buffer);
      forall end | IsReply(buffer, end)
        ensures !Decide(buffer).Undecided?
      {
        ReplyDecides(buffer, end);
      }
      if length.Some? && length.value <= |buffer| {
        var field := buffer[4..length.value - 2];
        assert buffer[3] == 3 ==> field[0] == buffer[4];
        assert IsReply(buffer, length.value);
      }
    }
  }

  /** What is decided stays decided, whatever else arrives. */
  lemma Decided(buffer: seq<Byte>, more: seq<Byte>)
    ensures !Decide(buffer).Undecided? ==> Decide(buffer + more) == Decide(buffer)
  {
    if |buffer| >= 4 && buffer[3] in {1, 3, 4} && ReplyLength(buffer).Some? {
      var end := ReplyLength(buffer).value;
      assert ReplyLength(buffer + more) == Some(end);
      if end <= |buffer| {
        assert (buffer + more)[4..end - 2] == buffer[4..end - 2];
      }
    }
  }

  /** What the negotiation has come to. */
  datatype Verdict = Open(state: State, rest: seq<Byte>) | Rejected(error: Error)

  function CredentialsError(username: seq<Byte>, password: seq<Byte>): Option<Error> {
    if username == [] || password == [] then Some(NoCredentials)
    else if |username| > 255 || |password| > 255 then Some(CredentialsTooLong)
    else None
  }

  /** The method selection of section 3 of RFC 1928. */
  function Selection(buffer: seq<Byte>, username: seq<Byte>, password: seq<Byte>): Verdict {
    if |buffer| < 2 then Open(Handshaking, buffer)
    else if buffer[0] != SOCKS_VERSION then Rejected(Version)
    else if buffer[1] == NO_ACCEPTABLE then Rejected(AuthRejected)
    else if buffer[1] == NO_AUTH then Open(Authenticated, buffer[2..])
    else if buffer[1] != USERNAME_PASSWORD then Rejected(AuthMethod)
    else match CredentialsError(username, password)
      case Some(error) => Rejected(error)
      case None => Open(Authenticating, buffer[2..])
  }

  /** The answer of section 2 of RFC 1929. */
  function Authentication(buffer: seq<Byte>): Verdict {
    if |buffer| < 2 then Open(Authenticating, buffer)
    else if buffer[0] != 1 then Rejected(AuthVersion)
    else if buffer[1] != 0 then Rejected(AuthFailed)
    else Open(Authenticated, buffer[2..])
  }

  /** The negotiation when `all` has arrived, the first `seen` bytes of it before the last piece. */
  function Negotiated(all: seq<Byte>, seen: nat, username: seq<Byte>, password: seq<Byte>): Verdict {
    var selection := Selection(all, username, password);
    if selection.Open? && selection.state == Authenticating && seen >= 2 then Authentication(selection.rest)
    else selection
  }

  /** How the pieces are cut makes no difference, unless the answer to the credentials came whole with the last bytes
      of the method selection and nothing came after: it is then left unread. */
  lemma CutsDoNotMatter(all: seq<Byte>, seen: nat, username: seq<Byte>, password: seq<Byte>)
    ensures Negotiated(all, seen, username, password) == Negotiated(all, |all|, username, password) <==>
            !(seen < 2 && |all| >= 4 && all[0] == 5 && all[1] == 2 && 1 <= |username| <= 255 && 1 <= |password| <= 255)
  {
  }

  /** How much had arrived before the last piece. */
  function Earlier(chunks: seq<seq<Byte>>): nat {
    |Flat(chunks[..if chunks == [] then 0 else |chunks| - 1])|
  }

  /** One more piece, on top of what the negotiation has come to. */
  lemma Grows(all: seq<Byte>, seen: nat, piece: seq<Byte>, username: seq<Byte>, password: seq<Byte>)
    requires seen <= |all|
    ensures var next := Negotiated(all + piece, |all|, username, password);
            match Negotiated(all, seen, username, password)
            case Open(Handshaking, rest) => next == Selection(rest + piece, username, password)
            case Open(Authenticating, rest) => next == Authentication(rest + piece)
            case Open(state, rest) => next == Open(state, rest + piece)
            case Rejected(error) => next == Rejected(error)
  {
    if |all| >= 2 {
      assert (all + piece)[2..] == all[2..] + piece;
      if |all| >= 4 {
        assert (all + piece)[2..][2..] == all[2..][2..] + piece;
      }
    }
  }

  function Flat(chunks: seq<seq<Byte>>): seq<Byte> {
    if chunks == [] then [] else Flat(chunks[..|chunks| - 1]) + chunks[|chunks| - 1]
  }

  class Socks5Client {
    /** Empty where an option is absent. */
    const username: seq<Byte>
    const password: seq<Byte>
    const authMethods: seq<Byte>
    var state: State
    var buffer: seq<Byte>
    /** The data listener is on the socket. */
    var listening: bool
    var destroyed: bool
    /** What was written to the socket, and what was emitted. */
    var sent: seq<seq<Byte>>
    var events: seq<Event>

    constructor (username: seq<Byte>, password: seq<Byte>)
      ensures state == Initial && buffer == [] && listening && !destroyed && sent == [] && events == []
      ensures this.username == username && this.password == password
      ensures authMethods == if username != [] && password != [] then [2, 0] else [0]
    {
      this.username, this.password := username, password;
      authMethods := (if username != [] && password != [] then [USERNAME_PASSWORD] else []) + [NO_AUTH];
      state, buffer, listening, destroyed, sent, events := Initial, [], true, false, [], [];
    }

    /** handshake; false where it throws. */
    method Handshake() returns (ok: bool)
      requires |authMethods| <= 2
      modifies this`state, this`sent
      ensures ok <==> old(state) == Initial
      ensures state == if ok then Handshaking else old(state)
      ensures sent == old(sent) + if ok then [[5, |authMethods|] + authMethods] else []
    {
      if state != Initial {
        return false;
      }
      state := Handshaking;
      var n: Byte := |authMethods|;
      sent := sent + [[SOCKS_VERSION, n] + authMethods];
      return true;
    }

    /** What a verdict does to the client. */
    twostate predicate Follows(verdict: Verdict)
      reads this
    {
      match verdict
      case Open(s, rest) =>
        && state == s && buffer == rest && destroyed == old(destroyed)
        && events == old(events) + if s == Authenticated then [BecameAuthenticated] else []
      case Rejected(error) => state == Failed && events == old(events) + [Errored(error)] && destroyed
    }

    method OnError(error: Error)
      modifies this`state, this`events, this`destroyed
      ensures state == Failed && destroyed && events == old(events) + [Errored(error)]
    {
      state := Failed;
      events := events + [Errored(error)];
      destroyed := true;
    }

    method OnClose()
      modifies this`state, this`events
      ensures state == Closed && events == old(events) + [BecameClosed]
    {
      state := Closed;
      events := events + [BecameClosed];
    }

    method OnData(data: seq<Byte>)
      requires listening
      modifies this`state, this`buffer, this`listening, this`destroyed, this`sent, this`events
      ensures old(state) == Handshaking ==> listening && Follows(Selection(old(buffer) + data, username, password))
      ensures if old(state) == Handshaking && state == Authenticating
              then sent == old(sent) + [[1, |username|] + username + [|password|] + password] else sent == old(sent)
      ensures old(state) == Authenticating ==> listening && Follows(Authentication(old(buffer) + data))
      ensures old(state) == Connecting ==> Replied(Decide(old(buffer) + data), old(buffer) + data)
      ensures old(state) !in {Handshaking, Authenticating, Connecting} ==>
                state == old(state) && buffer == old(buffer) + data && listening && events == old(events) && destroyed == old(destroyed)
    {
      buffer := buffer + data;
      var thrown: Option<Error> := None;
      match state {
        case Handshaking => thrown := HandleHandshakeResponse();
        case Authenticating => thrown := HandleAuthResponse();
        case Connecting => thrown := HandleConnectResponse();
        case _ =>
      }
      if thrown.Some? {
        OnError(thrown.value);
      }
    }

    method MarkAuthenticated()
      modifies this`state, this`events
      ensures state == Authenticated && events == old(events) + [BecameAuthenticated]
    {
      state := Authenticated;
      events := events + [BecameAuthenticated];
    }

    method HandleHandshakeResponse() returns (thrown: Option<Error>)
      requires state == Handshaking
      modifies this`state, this`buffer, this`sent, this`events
      ensures match Selection(old(buffer), username, password)
              case Open(s, rest) => thrown.None? && Follows(Open(s, rest))
              case Rejected(error) => thrown == Some(error) && events == old(events)
      ensures thrown == Some(AuthRejected) <==> |old(buffer)| >= 2 && old(buffer)[0] == 5 && old(buffer)[1] == 0xFF
      ensures thrown == Some(AuthMethod) <==> |old(buffer)| >= 2 && old(buffer)[0] == 5 && old(buffer)[1] !in {0, 2, 0xFF}
      ensures if thrown.None? && state == Authenticating
              then sent == old(sent) + [[1, |username|] + username + [|password|] + password] else sent == old(sent)
    {
      if |buffer| < 2 {
        return None;
      }
      var version, method' := buffer[0], buffer[1];
      if version != SOCKS_VERSION {
        return Some(Version);
      }
      if method' == NO_ACCEPTABLE {
        return Some(AuthRejected);
      }
      buffer := buffer[2..];
      if method' == NO_AUTH {
        MarkAuthenticated();
      } else if method' == USERNAME_PASSWORD {
        state := Authenticating;
        thrown := SendAuthRequest();
        return;
      } else {
        return Some(AuthMethod);
      }
      return None;
    }

    /** The request of section 2 of RFC 1929. */
    method SendAuthRequest() returns (thrown: Option<Error>)
      modifies this`sent
      ensures thrown == CredentialsError(username, password)
      ensures if thrown.None? then sent == old(sent) + [[1, |username|] + username + [|password|] + password] else sent == old(sent)
    {
      if username == [] || password == [] {
        return Some(NoCredentials);
      }
      if |username| > 255 || |password| > 255 {
        return Some(CredentialsTooLong);
      }
      var n: Byte, m: Byte := |username|, |password|;
      sent := sent + [[1, n] + username + [m] + password];
      return None;
    }

    method HandleAuthResponse() returns (thrown: Option<Error>)
      requires state == Authenticating
      modifies this`state, this`buffer, this`events
      ensures match Authentication(old(buffer))
              case Open(s, rest) => thrown.None? && Follows(Open(s, rest))
              case Rejected(error) => thrown == Some(error) && events == old(events)
    {
      if |buffer| < 2 {
        return None;
      }
      var version, status := buffer[0], buffer[1];
      if version != 1 {
        return Some(AuthVersion);
      }
      if status != 0 {
        return Some(AuthFailed);
      }
      buffer := buffer[2..];
      MarkAuthenticated();
      return None;
    }

    /** connect; false where it throws. An address or port that cannot be sent is found out only after the state has
        changed. */
    method Connect(address: string, isIPv6: bool, utf8: seq<Byte>, port: int) returns (ok: bool)
      modifies this`state, this`sent
      ensures state == if old(state) == Authenticated then Connecting else old(state)
      ensures ok <==> old(state) == Authenticated && ParseAddress(address, isIPv6, utf8).Some? && 0 <= port <= 0xFFFF
      ensures !ok ==> sent == old(sent)
      ensures ok ==> var (addressType, bytes) := ParseAddress(address, isIPv6, utf8).value;
                     sent == old(sent) + [[5, 1, 0] + BuildAddressBuffer(addressType, bytes, port).value]
    {
      if state == Connecting || state == Connected {
        return false;
      }
      if state != Authenticated {
        return false;
      }
      state := Connecting;
      var request := BuildConnectRequest(CONNECT, address, isIPv6, utf8, port);
      if request.None? {
        return false;
      }
      sent := sent + [request.value];
      return true;
    }

    method BuildConnectRequest(command: Byte, address: string, isIPv6: bool, utf8: seq<Byte>, port: int)
      returns (request: Option<seq<Byte>>)
      ensures request.Some? <==> ParseAddress(address, isIPv6, utf8).Some? && 0 <= port <= 0xFFFF
      ensures request.Some? ==>
                var (addressType, bytes) := ParseAddress(address, isIPv6, utf8).value;
                request.value == [5, command, 0] + BuildAddressBuffer(addressType, bytes, port).value
    {
      var parsed := ParseAddress(address, isIPv6, utf8);
      if parsed.None? || !(0 <= port <= 0xFFFF) {
        return None;
      }
      var (addressType, bytes) := parsed.value;
      return Some([SOCKS_VERSION, command, 0, addressType] + bytes + [port / 256, port % 256]);
    }

    /** What a reply, or the part of one in `all`, does to the client. */
    twostate predicate Replied(decision: Decision, all: seq<Byte>)
      reads this
    {
      match decision
      case Undecided =>
        state == Connecting && buffer == all && listening == old(listening) && events == old(events) && destroyed == old(destroyed)
      case Refused(error) => state == Failed && destroyed && events == old(events) + [Errored(error)] && listening == old(listening)
      case Accepted(address, port) =>
        && state == Connected && !listening && events == old(events) + [BecameConnected(address, port)]
        && buffer == [] && destroyed == old(destroyed)
    }

    method HandleConnectResponse() returns (thrown: Option<Error>)
      requires state == Connecting && listening
      modifies this`state, this`buffer, this`listening, this`events
      ensures if Decide(old(buffer)).Refused? then thrown == Some(Decide(old(buffer)).error) && events == old(events) && listening
              else thrown.None? && Replied(Decide(old(buffer)), old(buffer))
    {
      if |buffer| < 4 {
        return None;
      }
      var version, reply, addressType := buffer[0], buffer[1], buffer[3];
      if version != SOCKS_VERSION {
        return Some(ReplyVersion);
      }
      var responseLength := 4;
      match addressType {
        case 1 => responseLength := responseLength + 4 + 2;
        case 3 =>
          if |buffer| < 5 {
            return None;
          }
          responseLength := responseLength + 1 + buffer[4] as int + 2;
        case 4 => responseLength := responseLength + 16 + 2;
        case _ => return Some(AddressType);
      }
      if |buffer| < responseLength {
        return None;
      }
      if reply != SUCCEEDED {
        return Some(Reply(reply));
      }
      var boundAddress;
      var offset := 4;
      match addressType {
        case 1 =>
          boundAddress := Text(Dotted(buffer[offset..offset + 4]));
          offset := offset + 4;
        case 3 =>
          var domainLength: nat := buffer[offset];
          offset := offset + 1;
          boundAddress := Name(buffer[offset..offset + domainLength]);
          offset := offset + domainLength;
          assert buffer[4..offset][1..] == buffer[5..offset];
        case _ =>
          var parts := ReadGroups(buffer[offset..offset + 16]);
          boundAddress := Text(Join(parts, ':'));
          offset := offset + 16;
      }
      var boundPort := U16(buffer[offset], buffer[offset + 1]);
      buffer := [];
      state := Connected;
      listening := false;
      events := events + [BecameConnected(boundAddress, boundPort)];
      return None;
    }
  }

  lemma FlatTake(chunks: seq<seq<Byte>>, i: nat)
    requires i < |chunks|
    ensures Flat(chunks[..i + 1]) == Flat(chunks[..i]) + chunks[i]
  {
    assert chunks[..i + 1][..i] == chunks[..i];
  }

  lemma EarlierTake(chunks: seq<seq<Byte>>, i: nat)
    requires i < |chunks|
    ensures Earlier(chunks[..i + 1]) == |Flat(chunks[..i])| && Earlier(chunks[..i]) <= |Flat(chunks[..i])|
  {
    assert chunks[..i + 1][..i] == chunks[..i];
    if i > 0 {
      FlatTake(chunks, i - 1);
      assert chunks[..i][..i - 1] == chunks[..i - 1];
    }
  }

  /** The reply to CONNECT in any pieces: the end depends on its bytes alone, and anything behind it is dropped. A
      reply that was there before CONNECT was sent is read once anything else arrives. */
  method ReceiveReply(client: Socks5Client, chunks: seq<seq<Byte>>)
    requires client.state == Connecting && client.listening
    modifies client
    ensures var all := old(client.buffer) + Flat(chunks);
            client.Replied(if chunks == [] then Undecided else Decide(all), all)
  {
    ghost var first := client.buffer;
    assert first + Flat(chunks[..0]) == first;
    for i := 0 to |chunks|
      invariant client.Replied(if i == 0 then Undecided else Decide(first + Flat(chunks[..i])), first + Flat(chunks[..i]))
      invariant i > 0 && !Decide(first + Flat(chunks[..i])).Undecided? ==> client.state in {Connected, Failed}
    {
      FlatTake(chunks, i);
      assert first + Flat(chunks[..i]) + chunks[i] == first + Flat(chunks[..i + 1]);
      Decided(first + Flat(chunks[..i]), chunks[i]);
      if client.listening {
        client.OnData(chunks[i]);
      }
    }
    assert chunks[..|chunks|] == chunks;
  }

  /** The negotiation in any pieces. */
  method ReceiveNegotiation(client: Socks5Client, chunks: seq<seq<Byte>>)
    requires client.state == Handshaking && client.buffer == [] && client.listening
    modifies client
    ensures client.listening
    ensures client.Follows(Negotiated(Flat(chunks), Earlier(chunks), client.username, client.password))
  {
    assert Negotiated(Flat(chunks[..0]), Earlier(chunks[..0]), client.username, client.password) == Open(Handshaking, []);
    hide Negotiated, Selection, Authentication, Flat, Earlier;
    for i := 0 to |chunks|
      invariant client.listening
      invariant client.Follows(Negotiated(Flat(chunks[..i]), Earlier(chunks[..i]), client.username, client.password))
    {
      FlatTake(chunks, i);
      EarlierTake(chunks, i);
      Grows(Flat(chunks[..i]), Earlier(chunks[..i]), chunks[i], client.username, client.password);
      client.OnData(chunks[i]);
    }
    assert chunks[..|chunks|] == chunks;
  }

  /** A server selects username and password and takes them before it is asked, in one piece: the client goes on waiting
      for an answer it already has. In two pieces it is authenticated. */
  method AnswerUnread(together: bool) returns (client: Socks5Client)
    ensures client.state == if together then Authenticating else Authenticated
    ensures client.buffer == if together then [1, 0] else []
  {
    client := new Socks5Client([0x75], [0x70]);
    var _ := client.Handshake();
    assert [] + [5, 2, 1, 0] == [5, 2, 1, 0];
    if together {
      client.OnData([5, 2, 1, 0]);
    } else {
      client.OnData([5, 2]);
      client.OnData([1, 0]);
    }
  }

  lemma {:induction false} FlatConcat(a: seq<seq<Byte>>, b: seq<seq<Byte>>)
    ensures Flat(a + b) == Flat(a) + Flat(b)
  {
    if b == [] {
      assert a + b == a;
    } else {
      assert (a + b)[..|a + b| - 1] == a + b[..|b| - 1];
      FlatConcat(a, b[..|b| - 1]);
    }
  }

  /** A server that goes along: it selects a method, and takes the credentials if it asked for them. */
  ghost predicate GoesAlong(greeting: seq<seq<Byte>>, answer: seq<seq<Byte>>, username: seq<Byte>, password: seq<Byte>) {
    if answer == [] then Flat(greeting) == [5, 0]
    else Flat(greeting) == [5, 2] && 1 <= |username| <= 255 && 1 <= |password| <= 255 && Flat(answer) == [1, 0]
  }

  lemma GoesAlongWell(greeting: seq<seq<Byte>>, answer: seq<seq<Byte>>, username: seq<Byte>, password: seq<Byte>)
    requires GoesAlong(greeting, answer, username, password)
    ensures var chunks := greeting + answer;
            Negotiated(Flat(chunks), Earlier(chunks), username, password) == Open(Authenticated, [])
  {
    FlatConcat(greeting, answer);
    if answer == [] {
      assert greeting + answer == greeting;
    } else {
      var n := |greeting| + |answer| - 1;
      assert (greeting + answer)[..n] == greeting + answer[..|answer| - 1];
      FlatConcat(greeting, answer[..|answer| - 1]);
      assert (Flat(greeting) + Flat(answer))[2..] == Flat(answer);
    }
  }

  method Negotiate(username: seq<Byte>, password: seq<Byte>, greeting: seq<seq<Byte>>, answer: seq<seq<Byte>>)
    returns (client: Socks5Client)
    requires GoesAlong(greeting, answer, username, password)
    ensures fresh(client) && client.state == Authenticated && client.buffer == [] && client.listening && !client.destroyed
    ensures client.events == [BecameAuthenticated]
  {
    GoesAlongWell(greeting, answer, username, password);
    hide Negotiated, Earlier, GoesAlong, Flat;
    client := new Socks5Client(username, password);
    var _ := client.Handshake();
    ReceiveNegotiation(client, greeting + answer);
  }

  lemma WholeReply(reply: seq<seq<Byte>>)
    requires IsReply(Flat(reply), |Flat(reply)|) && Flat(reply)[1] == 0
    ensures var bytes := Flat(reply);
            && [] + bytes == bytes && reply != []
            && Decide(bytes) == Accepted(Granted(bytes).address, Granted(bytes).port)
  {
    ReplyDecides(Flat(reply), |Flat(reply)|);
  }

  /** What a reply that grants the request says. */
  ghost function Granted(reply: seq<Byte>): (event: Event)
    requires IsReply(reply, |reply|)
    ensures event.BecameConnected?
  {
    var n := |reply|;
    BecameConnected(AddressOf(reply[3], reply[4..n - 2]), 256 * reply[n - 2] as int + reply[n - 1] as int)
  }

  /** A whole session with a server that accepts: it ends connected, to the address the reply names, however the
      server's bytes are cut. */
  method Session(username: seq<Byte>, password: seq<Byte>, greeting: seq<seq<Byte>>, answer: seq<seq<Byte>>,
      address: string, isIPv6: bool, utf8: seq<Byte>, port: int, reply: seq<seq<Byte>>) returns (client: Socks5Client)
    requires GoesAlong(greeting, answer, username, password)
    requires ParseAddress(address, isIPv6, utf8).Some? && 0 <= port <= 0xFFFF
    requires IsReply(Flat(reply), |Flat(reply)|) && Flat(reply)[1] == 0
    ensures client.state == Connected && !client.destroyed
    ensures client.events == [BecameAuthenticated, Granted(Flat(reply))]
  {
    WholeReply(reply);
    hide Negotiated, Decide, Earlier, ParseAddress, AddressOf, IsReply, GoesAlong, Flat, BuildAddressBuffer, Granted;
    client := Negotiate(username, password, greeting, answer);
    var ok := client.Connect(address, isIPv6, utf8, port);
    ReceiveReply(client, reply);
  }
}

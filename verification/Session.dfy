/** The byte formats of a proxy session: SOCKS5 messages and Basic credentials. Messages are
    complete; what a read leaves in the buffer behind them is arbitrary. */
module Session {
  import opened Wrappers
  import opened Base64

  const SOCKS_VERSION: Byte := 5
  const AUTH_USERPASS: Byte := 2
  const CMD_CONNECT: Byte := 1
  const ATYP_IPV4: Byte := 1
  const ATYP_DOMAIN: Byte := 3
  const ATYP_IPV6: Byte := 4

  // ----- CONNECT requests, section 4 of RFC 1928 -------------------------------------

  datatype Address = V4(bytes: seq<Byte>) | Domain(name: seq<Byte>) | V6(bytes: seq<Byte>)

  datatype Parsed = Request(host: Address, port: nat) | Incomplete | Invalid | BadCommand | BadAddress

  /** The buffer is an array of 8192 bytes, of which the last read has filled `length`. */
  ghost predicate Received(buf: seq<Byte>, length: nat) {
    |buf| == 8192 && length <= 8192
  }

  function PortAt(buf: seq<Byte>, i: nat): nat
    requires i + 1 < |buf|
  {
    buf[i] as int * 256 + buf[i + 1]
  }

  function ParseRequest(buf: seq<Byte>, length: nat): Parsed
    requires Received(buf, length)
  {
    if length < 4 || buf[0] != SOCKS_VERSION then Invalid
    else if buf[1] != CMD_CONNECT then BadCommand
    else if buf[3] == ATYP_IPV4 then
      if length < 10 then Incomplete else Request(V4(buf[4..8]), PortAt(buf, 8))
    else if buf[3] == ATYP_DOMAIN then
      var n: nat := buf[4];
      if length < 5 + n + 2 then Incomplete else Request(Domain(buf[5..5 + n]), PortAt(buf, 5 + n))
    else if buf[3] == ATYP_IPV6 then
      if length < 22 then Incomplete else Request(V6(buf[4..20]), PortAt(buf, 20))
    else BadAddress
  }

  /** What the gateway sends to the local proxy; the host's length goes through a uint8_t. */
  method BuildConnect(host: seq<Byte>, port: nat) returns (request: seq<Byte>)
    requires port < 65536
    ensures request == ConnectRequest(host, port)
  {
    request := [];
    request := request + [SOCKS_VERSION];
    request := request + [CMD_CONNECT];
    request := request + [0];
    request := request + [ATYP_DOMAIN];
    var domainLength := |host| % 256;
    request := request + [domainLength];
    request := request + host;
    request := request + [port / 256];
    request := request + [port % 256];
  }

  function ConnectRequest(host: seq<Byte>, port: nat): seq<Byte>
    requires port < 65536
  {
    [SOCKS_VERSION, CMD_CONNECT, 0, ATYP_DOMAIN, |host| % 256] + host + [port / 256, port % 256]
  }

  /** The request parser reads back what the builder wrote exactly for hosts of at most 255
      bytes; the first 8192 bytes of a longer host's request name another host. */
  lemma {:induction false} ConnectRoundTrip(host: seq<Byte>, port: nat, buf: seq<Byte>)
    requires port < 65536 && |buf| == 8192 && |host| + 7 <= 8192
    requires ConnectRequest(host, port) <= buf
    ensures ParseRequest(buf, |host| + 7) == Request(Domain(host), port) <==> |host| < 256
  {
    var m, n := ConnectRequest(host, port), |host| % 256;
    assert forall i :: 0 <= i < |m| ==> buf[i] == m[i];
    assert buf[5..5 + |host|] == host;
    if |host| >= 256 {
      assert |buf[5..5 + n]| < |host|;
    }
  }

  /** An address as a request carries it: its type, and its bytes, a name's after their number. */
  function AddressBytes(a: Address): seq<Byte>
    requires Sendable(a)
  {
    match a
    case V4(bytes) => [ATYP_IPV4] + bytes
    case Domain(name) => [ATYP_DOMAIN, |name|] + name
    case V6(bytes) => [ATYP_IPV6] + bytes
  }

  predicate Sendable(a: Address) {
    match a
    case V4(bytes) => |bytes| == 4
    case Domain(name) => |name| < 256
    case V6(bytes) => |bytes| == 16
  }

  function RequestMessage(a: Address, port: nat): seq<Byte>
    requires Sendable(a) && port < 65536
  {
    [SOCKS_VERSION, CMD_CONNECT, 0] + AddressBytes(a) + [port / 256, port % 256]
  }

  /** The buffer begins with so much of the request. */
  ghost predicate Holds(buf: seq<Byte>, length: nat, a: Address, port: nat)
    requires Sendable(a) && port < 65536
  {
    && Received(buf, length) && 4 <= length <= |RequestMessage(a, port)|
    && forall i :: 0 <= i < length ==> buf[i] == RequestMessage(a, port)[i]
  }

  lemma {:induction false} NameArrives(a: Address, port: nat, buf: seq<Byte>, length: nat)
    requires Sendable(a) && a.Domain? && port < 65536 && Holds(buf, length, a, port)
    ensures ParseRequest(buf, length) == if length == |RequestMessage(a, port)| then Request(a, port) else Incomplete
  {
    if length == |RequestMessage(a, port)| { assert buf[5..5 + |a.name|] == a.name; }
  }

  lemma {:induction false} V4Arrives(a: Address, port: nat, buf: seq<Byte>, length: nat)
    requires Sendable(a) && a.V4? && port < 65536 && Holds(buf, length, a, port)
    ensures ParseRequest(buf, length) == if length == |RequestMessage(a, port)| then Request(a, port) else Incomplete
  {
    assert |RequestMessage(a, port)| == 10 && buf[3] == ATYP_IPV4;
    if length == 10 { assert buf[4..8] == a.bytes; }
  }

  lemma {:induction false} V6Arrives(a: Address, port: nat, buf: seq<Byte>, length: nat)
    requires Sendable(a) && a.V6? && port < 65536 && Holds(buf, length, a, port)
    ensures ParseRequest(buf, length) == if length == |RequestMessage(a, port)| then Request(a, port) else Incomplete
  {
    assert |RequestMessage(a, port)| == 22 && buf[3] == ATYP_IPV6;
    if length == 22 { assert buf[4..20] == a.bytes; }
  }

  /** Every request a client can send is read as sent, whatever its kind of address, and no proper
      part of it is taken for one. */
  lemma {:induction false} RequestRoundTrip(a: Address, port: nat, buf: seq<Byte>, length: nat)
    requires Sendable(a) && port < 65536 && Received(buf, length)
    requires 4 <= length <= |RequestMessage(a, port)|
    requires RequestMessage(a, port)[..length] == buf[..length]
    ensures ParseRequest(buf, length) == if length == |RequestMessage(a, port)| then Request(a, port) else Incomplete
  {
    assert forall i :: 0 <= i < length ==> buf[i] == buf[..length][i] == RequestMessage(a, port)[i];
    match a
    case V4(_) => V4Arrives(a, port, buf, length);
    case Domain(_) => NameArrives(a, port, buf, length);
    case V6(_) => V6Arrives(a, port, buf, length);
  }

  /** What is not a CONNECT request of the three kinds gets the answer for the first thing wrong
      with it. */
  lemma RequestVerdict(buf: seq<Byte>, length: nat)
    requires Received(buf, length)
    ensures
      var r, head := ParseRequest(buf, length), length >= 4 && buf[0] == 5;
      && (r == Invalid <==> !head)
      && (r == BadCommand <==> head && buf[1] != 1)
      && (r == BadAddress <==> head && buf[1] == 1 && buf[3] !in {1, 3, 4})
  {
  }

  // ----- user name and password, section 2 of RFC 1929 -------------------------------

  datatype Login = Credentials(user: seq<Byte>, password: seq<Byte>) | Partial | Malformed

  function ParseLogin(buf: seq<Byte>, length: nat): Login
    requires Received(buf, length)
  {
    if length < 2 || buf[0] != 1 then Malformed
    else
      var ulen: nat := buf[1];
      if length < 2 + ulen + 1 then Partial
      else
        var plen: nat := buf[2 + ulen];
        if length < 2 + ulen + 1 + plen then Partial
        else Credentials(buf[2..2 + ulen], buf[3 + ulen..3 + ulen + plen])
  }

  function LoginMessage(user: seq<Byte>, password: seq<Byte>): seq<Byte>
    requires |user| < 256 && |password| < 256
  {
    [1, |user|] + user + [|password|] + password
  }

  /** Every login a client can send is read as sent, and no proper part of it is taken for one. */
  lemma {:induction false} LoginRoundTrip(user: seq<Byte>, password: seq<Byte>, buf: seq<Byte>, length: nat)
    requires |user| < 256 && |password| < 256 && Received(buf, length)
    requires 2 <= length <= |LoginMessage(user, password)|
    requires LoginMessage(user, password)[..length] == buf[..length]
    ensures ParseLogin(buf, length)
         == if length == |LoginMessage(user, password)| then Credentials(user, password) else Partial
  {
    var m := LoginMessage(user, password);
    assert forall i :: 0 <= i < length ==> buf[i] == buf[..length][i] == m[i];
    if length == |m| {
      assert buf[2..2 + |user|] == user;
      assert buf[3 + |user|..3 + |user| + |password|] == password;
    }
  }

  /** What is not a login of the known version is turned down, and nothing else is. */
  lemma LoginVerdict(buf: seq<Byte>, length: nat)
    requires Received(buf, length)
    ensures ParseLogin(buf, length) == Malformed <==> length < 2 || buf[0] != 1
  {
  }

  // ----- method selection, section 3 of RFC 1928 -------------------------------------

  datatype Greeting = Accept | NoMethod | Short | Bad

  method HandleGreeting(buf: seq<Byte>, length: nat) returns (g: Greeting)
    requires Received(buf, length)
    ensures g.Bad? <==> length < 2 || buf[0] != SOCKS_VERSION
    ensures g.Short? <==> !g.Bad? && length < 2 + (buf[1] as int)
    ensures g.Accept? <==> !g.Bad? && !g.Short? && AUTH_USERPASS in buf[2..2 + (buf[1] as int)]
  {
    if length < 2 || buf[0] != SOCKS_VERSION { return Bad; }
    var n: nat := buf[1];
    if length < 2 + n { return Short; }
    for i := 0 to n
      invariant AUTH_USERPASS !in buf[2..2 + i]
    {
      if buf[2 + i] == AUTH_USERPASS {
        assert buf[2..2 + n][i] == AUTH_USERPASS;
        return Accept;
      }
    }
    return NoMethod;
  }

  // ----- Basic credentials, section 2 of RFC 7617 ------------------------------------

  const COLON: Byte := 58

  /** The session's table knows the standard alphabet only, and its loop ends at the first
      character outside it. */
  function StandardPrefix(text: string): string {
    if text == [] || !InStandardAlphabet(text[0]) then [] else [text[0]] + StandardPrefix(text[1..])
  }

  method DecodeCredentials(text: string) returns (decoded: seq<Byte>)
    ensures decoded == Decode(StandardPrefix(text))
  {
    decoded := [];
    var val, valb, i := 0, -8, 0;
    ghost var lost := 0;
    while i < |text| && InStandardAlphabet(text[i])
      invariant i <= |text|
      invariant forall j :: 0 <= j < i ==> InStandardAlphabet(text[j])
      invariant valb == SpareBits(|Sextets(text[..i])|) - 8
      invariant SextetNumber(Sextets(text[..i])) == val + TWO_32 * lost
      invariant decoded == Decode(text[..i])
      decreases |text| - i
    {
      ghost var s := Sextets(text[..i]);
      var idx := TableValue(text[i]);
      assert text[..i + 1][..i] == text[..i];
      GroupArrives(s, idx, val, lost);
      lost := LostBits(val, lost, idx);
      val := Wrap32(val * 64 + idx);
      valb := valb + 6;
      if valb >= 0 {
        decoded := decoded + [Emitted(val, valb)];
        valb := valb - 8;
      }
      i := i + 1;
    }
    PrefixIs(text, i);
  }

  lemma {:induction false} PrefixIs(text: string, n: nat)
    requires n <= |text| && forall j :: 0 <= j < n ==> InStandardAlphabet(text[j])
    requires n < |text| ==> !InStandardAlphabet(text[n])
    ensures StandardPrefix(text) == text[..n]
  {
    if n > 0 {
      PrefixIs(text[1..], n - 1);
      assert text[..n] == [text[0]] + text[1..][..n - 1];
    }
  }

  lemma PaddingBehind(n: nat)
    ensures Padding(n) == "" || Padding(n)[0] == '='
  {
  }

  lemma NothingBehind(text: string)
    ensures text + "" == text
  {
  }

  /** Padded or not, an encoded byte string is decoded to itself. */
  lemma {:induction false} CredentialBytes(data: seq<Byte>)
    ensures Decode(StandardPrefix(EncodePadded(data))) == data
    ensures Decode(StandardPrefix(Encode(data))) == data
  {
    var text, marks := Encode(data), Padding(|data|);
    EncodedIsStandard(data);
    RoundTrip(data);
    PaddingBehind(|data|);
    PrefixBefore(text, marks);
    PrefixBefore(text, "");
    NothingBehind(text);
  }

  lemma {:induction false} PrefixBefore(text: string, tail: string)
    requires forall j :: 0 <= j < |text| ==> InStandardAlphabet(text[j])
    requires tail == "" || tail[0] == '='
    ensures StandardPrefix(text + tail) == text
  {
    PrefixIs(text + tail, |text|);
  }

  /** Split at the first colon. */
  function SplitCredentials(data: seq<Byte>): Option<(seq<Byte>, seq<Byte>)> {
    if data == [] then None
    else if data[0] == COLON then Some(([], data[1..]))
    else
      match SplitCredentials(data[1..])
      case None => None
      case Some((user, password)) => Some(([data[0]] + user, password))
  }

  /** A client's header is read as the user and password it was made from, exactly when the
      user's name has no colon. */
  lemma {:induction false} BasicRoundTrip(user: seq<Byte>, password: seq<Byte>)
    ensures
      var header := EncodePadded(user + [COLON] + password);
      (SplitCredentials(Decode(StandardPrefix(header))) == Some((user, password)) <==> COLON !in user)
  {
    CredentialBytes(user + [COLON] + password);
    SplitAtColon(user, password);
  }

  lemma {:induction false} SplitAtColon(user: seq<Byte>, password: seq<Byte>)
    ensures SplitCredentials(user + [COLON] + password) == Some((user, password)) <==> COLON !in user
    ensures SplitCredentials(user + [COLON] + password).Some?
    ensures COLON !in SplitCredentials(user + [COLON] + password).value.0
  {
    var data := user + [COLON] + password;
    if user == [] {
      assert data[1..] == password;
    } else if user[0] != COLON {
      SplitAtColon(user[1..], password);
      assert data[1..] == user[1..] + [COLON] + password;
      assert user == [user[0]] + user[1..];
    }
  }
}

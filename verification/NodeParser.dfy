/** Reading a node back from an outbound of a v2ray configuration. */
module NodeParser {
  import opened Wrappers
  import opened Json
  import opened VmNode
  import opened ConfigBuilder

  function ParseHeader(j: Json, default: string): Result<string> {
    if Contains(j, "header") && Contains(j.fields["header"], "type")
    then AsString(j.fields["header"].fields["type"]) else Ok(default)
  }

  function ParseTcp(j: Json): Result<Tcp> {
    var header :- ParseHeader(j, "none");
    Ok(Tcp(header))
  }

  function ParseWs(j: Json): Result<Ws> {
    var path :- StringOr(j, "path", "/");
    if Contains(j, "headers") && Contains(j.fields["headers"], "Host") then
      var host :- AsString(j.fields["headers"].fields["Host"]);
      Ok(Ws(path, host))
    else Ok(Ws(path, ""))
  }

  function AllStrings(items: seq<Json>): Result<seq<string>> {
    if items == [] then Ok([])
    else
      var front :- AllStrings(items[..|items| - 1]);
      var last :- AsString(items[|items| - 1]);
      Ok(front + [last])
  }

  function ParseH2(j: Json): Result<H2> {
    var path :- StringOr(j, "path", "/");
    if Contains(j, "host") && j.fields["host"].Arr? then
      var hosts :- AllStrings(j.fields["host"].items);
      Ok(H2(path, hosts))
    else Ok(H2(path, []))
  }

  function ParseQuic(j: Json): Result<Quic> {
    var security :- StringOr(j, "security", "none");
    var key :- StringOr(j, "key", "");
    var header :- ParseHeader(j, "none");
    Ok(Quic(security, key, header))
  }

  function ParseKcp(j: Json): Result<Kcp> {
    var mtu :- IntOr(j, "mtu", 1350);
    var tti :- IntOr(j, "tti", 20);
    var uplink :- IntOr(j, "uplinkCapacity", 5);
    var downlink :- IntOr(j, "downlinkCapacity", 20);
    var congestion :- BoolOr(j, "congestion", false);
    var header :- ParseHeader(j, "none");
    Ok(Kcp(mtu, tti, uplink, downlink, congestion, header))
  }

  function ParseTls(j: Json): Result<Tls> {
    var insecure :- BoolOr(j, "allowInsecure", false);
    var name :- StringOr(j, "serverName", "");
    Ok(Tls(insecure, name))
  }

  function ParseTransport(ss: Json, n: Node): Result<Node> {
    if n.network == "tcp" && Contains(ss, "tcpSettings") then
      var tcp :- ParseTcp(ss.fields["tcpSettings"]);
      Ok(n.(tcp := tcp))
    else if n.network == "ws" && Contains(ss, "wsSettings") then
      var ws :- ParseWs(ss.fields["wsSettings"]);
      Ok(n.(ws := ws))
    else if n.network == "h2" && Contains(ss, "httpSettings") then
      var h2 :- ParseH2(ss.fields["httpSettings"]);
      Ok(n.(h2 := h2))
    else if n.network == "quic" && Contains(ss, "quicSettings") then
      var quic :- ParseQuic(ss.fields["quicSettings"]);
      Ok(n.(quic := quic))
    else if n.network == "kcp" && Contains(ss, "kcpSettings") then
      var kcp :- ParseKcp(ss.fields["kcpSettings"]);
      Ok(n.(kcp := kcp))
    else Ok(n)
  }

  function ParseStream(ss: Json, n: Node): Result<Node> {
    var network :- StringOr(ss, "network", "tcp");
    var security :- StringOr(ss, "security", "none");
    var tls := if security == "tls" then "tls" else "none";
    var m :- ParseTransport(ss, n.(network := network, tls := tls));
    if tls == "tls" && Contains(ss, "tlsSettings") then
      var config :- ParseTls(ss.fields["tlsSettings"]);
      Ok(m.(tlsConfig := config))
    else Ok(m)
  }

  function ParseUser(vnext: Json, n: Node): Result<Node> {
    if Contains(vnext, "users") && vnext.fields["users"].Arr? && vnext.fields["users"].items != [] then
      var user := vnext.fields["users"].items[0];
      var id :- StringOr(user, "id", "");
      var alterId :- IntOr(user, "alterId", 0);
      var security :- StringOr(user, "security", "auto");
      Ok(n.(userId := id, alterId := alterId, security := security))
    else Ok(n)
  }

  /** The server entry that is looked at; None when the outbound is to be skipped. */
  function FirstServer(outbound: Json): Option<Json> {
    if !Contains(outbound, "settings") || !Contains(outbound.fields["settings"], "vnext")
       || !outbound.fields["settings"].fields["vnext"].Arr?
       || outbound.fields["settings"].fields["vnext"].items == [] then None
    else Some(outbound.fields["settings"].fields["vnext"].items[0])
  }

  function ParseServer(vnext: Json, tag: string): Result<Node> {
    var address :- StringOr(vnext, "address", "");
    var port :- IntOr(vnext, "port", 443);
    ParseUser(vnext, NEW_NODE.(tag := tag, address := address, port := ToPort(port)))
  }

  /** None for an outbound that is skipped. */
  function ParseOutbound(outbound: Json): Result<Option<Node>> {
    var tag :- StringOr(outbound, "tag", "");
    if tag == "" then Ok(None)
    else
      match FirstServer(outbound)
      case None => Ok(None)
      case Some(vnext) =>
        var n :- ParseServer(vnext, tag);
        if Contains(outbound, "streamSettings") then
          var m :- ParseStream(outbound.fields["streamSettings"], n);
          Ok(Some(m))
        else Ok(Some(n))
  }

  // ----- what an outbound need not say -----------------------------------------------

  const EMPTY := Obj(map[])

  /** Settings of every transport that say nothing. */
  function SparseStream(network: string): Json {
    Obj(map["network" := Str(network), "tcpSettings" := EMPTY, "wsSettings" := EMPTY, "httpSettings" := EMPTY,
            "quicSettings" := EMPTY, "kcpSettings" := EMPTY])
  }

  /** An outbound that says nothing but its tag and transport gives a new node with these. */
  lemma {:induction false} SparseOutbound(tag: string, network: string)
    requires tag != "" && KnownNetwork(network)
    ensures
      var server := Obj(map["users" := Arr([EMPTY])]);
      ParseOutbound(Obj(map["tag" := Str(tag), "settings" := Obj(map["vnext" := Arr([server])]),
                            "streamSettings" := SparseStream(network)]))
      == Ok(Some(NEW_NODE.(tag := tag, network := network)))
  {
    var n := NEW_NODE.(tag := tag);
    assert ParseServer(Obj(map["users" := Arr([EMPTY])]), tag) == Ok(n);
    SparseStreamIs(n, network);
  }

  lemma SparseStreamIs(n: Node, network: string)
    requires KnownNetwork(network) && Used(n) == n && n.network == "tcp" && n.tls == "none" && n.tcp == TCP0
    ensures ParseStream(SparseStream(network), n) == Ok(n.(network := network))
  {
  }

  /** Without a transport it is TCP, and TLS settings that say nothing are those of a new node. */
  lemma SparseTls(tag: string)
    ensures ParseStream(Obj(map["security" := Str("tls"), "tlsSettings" := EMPTY]), NEW_NODE.(tag := tag))
         == Ok(NEW_NODE.(tag := tag, tls := "tls"))
    ensures ParseStream(EMPTY, NEW_NODE.(tag := tag)) == Ok(NEW_NODE.(tag := tag))
  {
  }

  // ----- reading undoes building -----------------------------------------------------

  lemma TcpRoundTrip(c: Tcp)
    ensures ParseTcp(TcpSettings(c)) == Ok(c)
  {
  }

  lemma WsRoundTrip(c: Ws)
    ensures ParseWs(WsSettings(c)) == Ok(c)
  {
  }

  lemma {:induction false} AllStringsOf(s: seq<string>)
    ensures AllStrings(Strings(s)) == Ok(s)
  {
    if s == [] {
      assert Strings(s) == [];
    } else {
      AllStringsOf(s[..|s| - 1]);
      assert Strings(s)[..|s| - 1] == Strings(s[..|s| - 1]);
      assert s == s[..|s| - 1] + [s[|s| - 1]];
    }
  }

  lemma {:induction false} H2RoundTrip(c: H2)
    ensures ParseH2(H2Settings(c)) == Ok(c)
  {
    AllStringsOf(c.hosts);
    var j := H2Settings(c);
    assert StringOr(j, "path", "/") == Ok(c.path);
    if c.hosts != [] {
      assert j.fields["host"] == Arr(Strings(c.hosts));
    }
  }

  lemma QuicRoundTrip(c: Quic)
    ensures ParseQuic(QuicSettings(c)) == Ok(c)
  {
  }

  lemma KcpRoundTrip(c: Kcp)
    ensures ParseKcp(KcpSettings(c)) == Ok(c)
  {
  }

  lemma TlsRoundTrip(c: Tls)
    ensures ParseTls(TlsSettings(c)) == Ok(c)
  {
  }

  /** The node as far as address, user and tag go. */
  function Addressed(n: Node): Node {
    NEW_NODE.(tag := n.tag, address := n.address, port := n.port, userId := n.userId,
              alterId := n.alterId, security := n.security)
  }

  ghost predicate HasTransport(n: Node, ss: map<string, Json>) {
    forall k :: k in TransportSettings(n) ==> k in ss && ss[k] == TransportSettings(n)[k]
  }

  function WithTransport(m: Node, n: Node): Node {
    m.(tcp := Used(n).tcp, ws := Used(n).ws, h2 := Used(n).h2, quic := Used(n).quic, kcp := Used(n).kcp)
  }

  lemma {:induction false} TransportRoundTrip(n: Node, ss: map<string, Json>, m: Node)
    requires KnownNetwork(n.network) && m.network == n.network && HasTransport(n, ss)
    requires m.tcp == TCP0 && m.ws == WS0 && m.h2 == H20 && m.quic == QUIC0 && m.kcp == KCP0
    ensures ParseTransport(Obj(ss), m) == Ok(WithTransport(m, n))
  {
    if n.network == "tcp" || n.network == "ws" || n.network == "h2" {
      HttpTransportRoundTrip(n, ss, m);
    } else if n.network == "quic" {
      QuicRoundTrip(n.quic);
      assert ss["quicSettings"] == QuicSettings(n.quic);
    } else {
      KcpRoundTrip(n.kcp);
      assert ss["kcpSettings"] == KcpSettings(n.kcp);
    }
  }

  lemma {:induction false} HttpTransportRoundTrip(n: Node, ss: map<string, Json>, m: Node)
    requires n.network == "tcp" || n.network == "ws" || n.network == "h2"
    requires m.network == n.network && HasTransport(n, ss)
    requires m.tcp == TCP0 && m.ws == WS0 && m.h2 == H20 && m.quic == QUIC0 && m.kcp == KCP0
    ensures ParseTransport(Obj(ss), m) == Ok(WithTransport(m, n))
  {
    if n.network == "tcp" {
      TcpRoundTrip(n.tcp);
      assert ss["tcpSettings"] == TcpSettings(n.tcp);
    } else if n.network == "ws" {
      WsRoundTrip(n.ws);
      assert ss["wsSettings"] == WsSettings(n.ws);
    } else {
      H2RoundTrip(n.h2);
      assert ss["httpSettings"] == H2Settings(n.h2);
    }
  }

  lemma StreamFields(n: Node)
    ensures
      var ss := StreamSettings(n);
      && StringOr(ss, "network", "tcp") == Ok(n.network)
      && StringOr(ss, "security", "none") == Ok(Used(n).tls)
      && (Contains(ss, "tlsSettings") <==> n.tls == "tls")
      && (n.tls == "tls" ==> ss.fields["tlsSettings"] == TlsSettings(n.tlsConfig))
      && HasTransport(n, ss.fields)
  {
  }

  lemma {:induction false} StreamRoundTrip(n: Node)
    requires KnownNetwork(n.network)
    ensures ParseStream(StreamSettings(n), Addressed(n)) == Ok(Used(n).(remark := ""))
  {
    var m := Addressed(n).(network := n.network, tls := Used(n).tls);
    StreamFields(n);
    TransportRoundTrip(n, StreamSettings(n).fields, m);
    TlsRoundTrip(n.tlsConfig);
  }

  lemma {:induction false} ServerRoundTrip(n: Node)
    ensures ParseServer(Server(n), n.tag) == Ok(Addressed(n))
  {
    var s := Server(n);
    assert StringOr(s, "address", "") == Ok(n.address) && IntOr(s, "port", 443) == Ok(n.port);
    UserRoundTrip(n, NEW_NODE.(tag := n.tag, address := n.address, port := n.port));
  }

  lemma {:induction false} UserRoundTrip(n: Node, m: Node)
    ensures ParseUser(Server(n), m) == Ok(m.(userId := n.userId, alterId := n.alterId, security := n.security))
  {
    assert Server(n).fields["users"] == Arr([User(n)]);
  }

  lemma {:induction false} OutboundFields(n: Node)
    ensures
      var o := Outbound(n);
      && StringOr(o, "tag", "") == Ok(n.tag)
      && StringOr(o, "protocol", "") == Ok("vmess")
      && FirstServer(o) == Some(Server(n))
      && Contains(o, "streamSettings") && o.fields["streamSettings"] == StreamSettings(n)
  {
    assert Outbound(n).fields["settings"] == Obj(map["vnext" := Arr([Server(n)])]);
  }

  /** A node survives being built into an outbound and parsed again, but for its remark and for
      settings its transport and TLS mode do not use. */
  lemma {:induction false} OutboundRoundTrip(n: Node)
    requires n.tag != "" && KnownNetwork(n.network)
    ensures StringOr(Outbound(n), "protocol", "") == Ok("vmess")
    ensures ParseOutbound(Outbound(n)) == Ok(Some(Used(n).(remark := "")))
  {
    OutboundFields(n);
    ServerRoundTrip(n);
    StreamRoundTrip(n);
  }
}

/** The vmess:// link of a node, and the node of a link. */
module VmLink {
  import opened Wrappers
  import opened Base64
  import opened Json
  import opened VmNode
  import Decimal
  import L = LinkCodec

  // ----- fields ----------------------------------------------------------------------

  /** The transport's part of a link: type, host and path. */
  datatype Carried = Carried(kind: string, host: string, path: string)

  function CarriedBy(n: Node): Carried {
    if n.network == "tcp" then Carried(n.tcp.header, "", "")
    else if n.network == "ws" then Carried("none", n.ws.host, n.ws.path)
    else if n.network == "h2" then Carried("none", L.Join(n.h2.hosts), n.h2.path)
    else if n.network == "quic" then Carried(n.quic.header, n.quic.security, n.quic.key)
    else Carried(n.kcp.header, "", "")
  }

  function CarriedFields(n: Node): map<string, Json> {
    if !KnownNetwork(n.network) then map[]
    else
      var c := CarriedBy(n);
      map["type" := Str(c.kind), "host" := Str(c.host), "path" := Str(c.path)]
  }

  function PlainFields(n: Node): map<string, Json> {
    map["v" := Str("2"), "ps" := Str(n.remark), "add" := Str(n.address),
        "port" := Str(Decimal.ToString(n.port)), "id" := Str(n.userId),
        "aid" := Str(Decimal.ToString(n.alterId)), "scy" := Str(n.security),
        "net" := Str(n.network), "tls" := Str(if n.tls == "tls" then "tls" else ""),
        "sni" := Str(if n.tls == "tls" then n.tlsConfig.serverName else "")]
  }

  function LinkJson(n: Node): Json { Obj(PlainFields(n) + CarriedFields(n)) }

  /** The port: a number is cut to 16 bits, a string is parsed and then cut; 443 without one, or
      when parsing throws. */
  function PortOf(j: Json): Port
    requires j.Obj?
  {
    if "port" !in j.fields then 443
    else match j.fields["port"]
      case Num(n) => n % 0x1_0000
      case Str(s) =>
        (match Decimal.ParseInt(s)
         case None => 443
         case Some(n) => n % 0x1_0000)
      case _ => 443
  }

  function AlterIdOf(j: Json): Int32
    requires j.Obj?
  {
    if "aid" !in j.fields then 0
    else match j.fields["aid"]
      case Num(n) => AsInt(Num(n)).value
      case Str(s) =>
        (match Decimal.ParseInt(s)
         case Some(n) => if -0x8000_0000 <= n < 0x8000_0000 then n else 0
         case None => 0)
      case _ => 0
  }

  function OrElse(text: string, default: string): string { if text == "" then default else text }

  function WithCarried(n: Node, c: Carried): Node {
    if n.network == "tcp" then n.(tcp := Tcp(c.kind))
    else if n.network == "ws" then n.(ws := Ws(OrElse(c.path, "/"), c.host))
    else if n.network == "h2" then
      n.(h2 := H2(OrElse(c.path, "/"), if c.host == "" then [] else L.Split(c.host)))
    else if n.network == "quic" then n.(quic := Quic(OrElse(c.host, "none"), c.path, c.kind))
    else if n.network == "kcp" then n.(kcp := KCP0.(header := c.kind))
    else n
  }

  /** The fields every transport has. */
  function PlainNode(j: Json): Result<Node> {
    var remark :- StringOr(j, "ps", "");
    var address :- StringOr(j, "add", "");
    var userId :- StringOr(j, "id", "");
    var security :- StringOr(j, "scy", "auto");
    var network :- StringOr(j, "net", "tcp");
    var mode :- StringOr(j, "tls", "");
    var tls := if mode == "" then "none" else mode;
    Ok(NEW_NODE.(remark := remark, address := address, port := PortOf(j), userId := userId,
                 alterId := AlterIdOf(j), security := security, network := network, tls := tls))
  }

  function NodeFromJson(j: Json): Result<Node> {
    var n :- PlainNode(j);
    var kind :- StringOr(j, "type", "none");
    var host :- StringOr(j, "host", "");
    var path :- StringOr(j, "path", "");
    var sni :- StringOr(j, "sni", "");
    var m := WithCarried(n, Carried(kind, host, path));
    Ok(if n.tls == "tls" && sni != "" then m.(tlsConfig := Tls(false, sni)) else m)
  }

  // ----- links -----------------------------------------------------------------------

  const PREFIX := "vmess://"

  datatype Decoded = Decoded(node: Node) | NoPrefix | NotBase64 | NotJson | Thrown

  /** The bytes of a link's text: the URL-safe reading, or else the standard one. */
  function TextOf(link: string): seq<Byte>
    requires PREFIX <= link
  {
    var text := L.DecodeBlocks(L.Standard(link[|PREFIX|..]));
    if text == [] then L.DecodeBlocks(link[|PREFIX|..]) else text
  }

  function DecodeLink(link: string, parse: seq<Byte> -> Option<Json>): Decoded {
    if !(PREFIX <= link) then NoPrefix
    else if TextOf(link) == [] then NotBase64
    else
      match parse(TextOf(link))
      case None => NotJson
      case Some(j) =>
        match NodeFromJson(j)
        case Threw => Thrown
        case Ok(n) => Decoded(n)
  }

  function EncodeLink(n: Node, dump: Json -> seq<Byte>): string {
    PREFIX + Encode(dump(LinkJson(n)))
  }

  method Export(n: Node, dump: Json -> seq<Byte>) returns (link: string)
    ensures link == EncodeLink(n, dump)
  {
    var j := map["v" := Str("2")];
    j := j["ps" := Str(n.remark)];
    j := j["add" := Str(n.address)];
    j := j["port" := Str(Decimal.ToString(n.port))];
    j := j["id" := Str(n.userId)];
    j := j["aid" := Str(Decimal.ToString(n.alterId))];
    j := j["scy" := Str(n.security)];
    j := j["net" := Str(n.network)];
    j := j["tls" := Str(if n.tls == "tls" then "tls" else "")];
    var carried := ExportTransport(n);
    j := j["sni" := Str(if n.tls == "tls" then n.tlsConfig.serverName else "")] + carried;
    assert Obj(j) == LinkJson(n);
    var text := L.EncodeText(dump(Obj(j)));
    return PREFIX + text;
  }

  method ExportTransport(n: Node) returns (fields: map<string, Json>)
    ensures fields == CarriedFields(n)
  {
    var kind, host, path := "none", "", "";
    if n.network == "tcp" {
      kind := n.tcp.header;
    } else if n.network == "ws" {
      host, path := n.ws.host, n.ws.path;
    } else if n.network == "h2" {
      host := L.JoinHosts(n.h2.hosts);
      path := n.h2.path;
    } else if n.network == "quic" {
      kind, host, path := n.quic.header, n.quic.security, n.quic.key;
    } else if n.network == "kcp" {
      kind := n.kcp.header;
    } else {
      return map[];
    }
    return map["type" := Str(kind), "host" := Str(host), "path" := Str(path)];
  }

  method Decode(link: string, parse: seq<Byte> -> Option<Json>) returns (d: Decoded)
    ensures d == DecodeLink(link, parse)
  {
    if !(PREFIX <= link) { return NoPrefix; }
    var part := link[|PREFIX|..];
    var text := L.DecodeUrlSafe(part);
    if text == [] { text := L.DecodeText(part); }
    if text == [] { return NotBase64; }
    var j := parse(text);
    if j.None? { return NotJson; }
    var n := DecodeNode(j.value);
    return if n.Threw? then Thrown else Decoded(n.value);
  }

  method DecodeNode(j: Json) returns (r: Result<Node>)
    ensures r == NodeFromJson(j)
  {
    var node :- DecodePlain(j);
    var kind :- StringOr(j, "type", "none");
    var host :- StringOr(j, "host", "");
    var path :- StringOr(j, "path", "");
    var sni :- StringOr(j, "sni", "");
    node := DecodeTransport(node, kind, host, path);
    if node.tls == "tls" && sni != "" {
      node := node.(tlsConfig := Tls(false, sni));
    }
    return Ok(node);
  }

  method DecodePlain(j: Json) returns (r: Result<Node>)
    ensures r == PlainNode(j)
  {
    var remark :- StringOr(j, "ps", "");
    var address :- StringOr(j, "add", "");
    var userId :- StringOr(j, "id", "");
    var security :- StringOr(j, "scy", "auto");
    var network :- StringOr(j, "net", "tcp");
    var tls :- StringOr(j, "tls", "");
    if tls == "" { tls := "none"; }
    return Ok(NEW_NODE.(remark := remark, address := address, port := PortOf(j), userId := userId,
                        alterId := AlterIdOf(j), security := security, network := network, tls := tls));
  }

  method DecodeTransport(n: Node, kind: string, host: string, path: string) returns (node: Node)
    ensures node == WithCarried(n, Carried(kind, host, path))
  {
    node := n;
    if node.network == "tcp" {
      node := node.(tcp := Tcp(kind));
    } else if node.network == "ws" {
      node := node.(ws := Ws(OrElse(path, "/"), host));
    } else if node.network == "h2" {
      var hosts: seq<string> := [];
      if host != "" { hosts := L.SplitHosts(host); }
      node := node.(h2 := H2(OrElse(path, "/"), hosts));
    } else if node.network == "quic" {
      node := node.(quic := Quic(OrElse(host, "none"), path, kind));
    } else if node.network == "kcp" {
      node := node.(kcp := KCP0.(header := kind));
    }
  }

  // ----- what a link carries ---------------------------------------------------------

  /** A node as a link can carry it: no tag, no mKCP numbers, no permission for insecure TLS,
      no settings of other transports. */
  function Linked(n: Node): Node {
    Used(n).(tag := "",
             tlsConfig := if n.tls == "tls" then Tls(false, n.tlsConfig.serverName) else TLS0,
             kcp := if n.network == "kcp" then KCP0.(header := n.kcp.header) else KCP0)
  }

  /** What of the validator's rules the round trip needs. */
  predicate Sendable(n: Node) {
    && KnownNetwork(n.network) && (n.tls == "tls" || n.tls == "none")
    && (n.network == "ws" ==> n.ws.path != "") && (n.network == "h2" ==> n.h2.path != "")
    && (n.network == "quic" ==> n.quic.security != "")
  }

  lemma AcceptedIsSendable(n: Node, v5Core: bool, p: Patterns)
    requires Accepted(n, v5Core, p)
    ensures Sendable(n)
  {
  }

  lemma PlainKept(n: Node)
    ensures
      var plain, all := PlainFields(n), LinkJson(n).fields;
      forall k :: k in plain ==> k in all && all[k] == plain[k]
  {
  }

  lemma {:induction false} PlainBack(n: Node)
    ensures
      var j := LinkJson(n);
      && StringOr(j, "ps", "") == Ok(n.remark) && StringOr(j, "add", "") == Ok(n.address)
      && StringOr(j, "id", "") == Ok(n.userId) && StringOr(j, "scy", "auto") == Ok(n.security)
      && StringOr(j, "net", "tcp") == Ok(n.network)
  {
    PlainKept(n);
  }

  lemma {:induction false} TlsBack(n: Node)
    ensures
      var j := LinkJson(n);
      && StringOr(j, "tls", "") == Ok(if n.tls == "tls" then "tls" else "")
      && StringOr(j, "sni", "") == Ok(if n.tls == "tls" then n.tlsConfig.serverName else "")
  {
    PlainKept(n);
  }

  lemma {:induction false} NumbersBack(n: Node)
    ensures PortOf(LinkJson(n)) == n.port && AlterIdOf(LinkJson(n)) == n.alterId
  {
    PlainKept(n);
    var j := LinkJson(n);
    PortBack(j, n.port);
    AlterIdBack(j, n.alterId);
  }

  lemma {:induction false} PortBack(j: Json, port: Port)
    requires j.Obj? && "port" in j.fields && j.fields["port"] == Str(Decimal.ToString(port))
    ensures PortOf(j) == port
  {
    Decimal.ParseToString(port);
  }

  lemma {:induction false} AlterIdBack(j: Json, alterId: Int32)
    requires j.Obj? && "aid" in j.fields && j.fields["aid"] == Str(Decimal.ToString(alterId))
    ensures AlterIdOf(j) == alterId
  {
    Decimal.ParseToString(alterId);
  }

  /** A port means the same as a number and as its digits, and itself where it fits in 16 bits;
      without one, with one of another kind, or with text that is no number, it is 443. */
  lemma {:induction false} PortMeans(fields: map<string, Json>, n: Int32)
    ensures PortOf(Obj(fields["port" := Num(n)])) == PortOf(Obj(fields["port" := Str(Decimal.ToString(n))]))
    ensures 0 <= n < 0x1_0000 ==> PortOf(Obj(fields["port" := Num(n)])) == n
    ensures PortOf(Obj(fields - {"port"})) == 443
    ensures forall j: Json :: !j.Num? && (j.Str? ==> Decimal.ParseInt(j.s).None?) ==>
      PortOf(Obj(fields["port" := j])) == 443
  {
    Decimal.ParseToString(n);
  }

  /** So does an alterId, with 0 in place of 443. */
  lemma {:induction false} AlterIdMeans(fields: map<string, Json>, n: Int32)
    ensures AlterIdOf(Obj(fields["aid" := Num(n)])) == n
    ensures AlterIdOf(Obj(fields["aid" := Str(Decimal.ToString(n))])) == n
    ensures AlterIdOf(Obj(fields - {"aid"})) == 0
    ensures forall j: Json :: !j.Num? && (j.Str? ==> Decimal.ParseInt(j.s).None?) ==>
      AlterIdOf(Obj(fields["aid" := j])) == 0
  {
    Decimal.ParseToString(n);
  }

  lemma PlainIsNew(j: Json)
    requires PlainNode(j).Ok?
    ensures
      var n := PlainNode(j).value;
      && n.tag == "" && n.tlsConfig == TLS0
      && n.tcp == TCP0 && n.ws == WS0 && n.h2 == H20 && n.quic == QUIC0 && n.kcp == KCP0
  {
  }

  lemma CarriedIsUsed(n: Node, c: Carried)
    requires n.tcp == TCP0 && n.ws == WS0 && n.h2 == H20 && n.quic == QUIC0 && n.kcp == KCP0 && n.tlsConfig == TLS0
    ensures var m := WithCarried(n, c); Used(m) == m.(tls := Used(m).tls) && m.tag == n.tag && m.tls == n.tls
    ensures WithCarried(n, c).tlsConfig == TLS0
  {
  }

  lemma {:induction false} SniIsUsed(n: Node, sni: string)
    requires Used(n) == n.(tls := Used(n).tls) && n.tlsConfig == TLS0
    ensures
      var m := if n.tls == "tls" && sni != "" then n.(tlsConfig := Tls(false, sni)) else n;
      Used(m) == m.(tls := Used(m).tls) && m.tlsConfig == Tls(false, if m.tls == "tls" then sni else "")
  {
    if n.tls == "tls" { assert Used(n).tls == "tls"; }
  }

  /** What any object is read as has no tag and no settings that are not in use, and the server
      name that is given, if TLS is on. */
  lemma {:induction false} DecodedIsUsed(j: Json)
    requires NodeFromJson(j).Ok?
    ensures
      var n := NodeFromJson(j).value;
      && n.tag == "" && Used(n) == n.(tls := Used(n).tls)
      && (n.tls == "tls" ==> StringOr(j, "sni", "") == Ok(n.tlsConfig.serverName))
  {
    var n := PlainNode(j).value;
    var kind, host, path := StringOr(j, "type", "none"), StringOr(j, "host", ""), StringOr(j, "path", "");
    var sni, c := StringOr(j, "sni", "").value, Carried(kind.value, host.value, path.value);
    PlainIsNew(j);
    CarriedIsUsed(n, c);
    SniIsUsed(WithCarried(n, c), sni);
  }

  /** What a link says beside the node: the version of the format, and no header where the
      transport has none. */
  lemma {:induction false} LinkFormat(n: Node)
    ensures StringOr(LinkJson(n), "v", "") == Ok("2")
    ensures n.network == "ws" || n.network == "h2" ==> StringOr(LinkJson(n), "type", "") == Ok("none")
  {
    PlainKept(n);
  }

  /** Links are told by their prefix, and need not have anything behind it to be told. */
  lemma {:induction false} PrefixTells(link: string, parse: seq<Byte> -> Option<Json>)
    ensures DecodeLink(link, parse) == NoPrefix <==> !exists rest: string :: link == PREFIX + rest
  {
    if PREFIX <= link { assert link == PREFIX + link[|PREFIX|..]; }
  }

  lemma {:induction false} StandardAgain(text: string)
    requires L.Standard(text) == text
    ensures L.Standard(UrlSafe(text)) == text
  {
    var t := L.Standard(UrlSafe(text));
    forall i | 0 <= i < |text| ensures t[i] == text[i] {
      assert text[i] == L.Standard(text)[i];
    }
  }

  /** A link in the URL-safe alphabet is read as the same link in the standard one. */
  lemma {:induction false} UrlSafeLink(text: seq<Byte>, parse: seq<Byte> -> Option<Json>)
    requires text != [] && text[|text| - 1] != 0
    ensures DecodeLink(PREFIX + UrlSafe(Encode(text)), parse) == DecodeLink(PREFIX + Encode(text), parse)
  {
    var safe, link := PREFIX + UrlSafe(Encode(text)), PREFIX + Encode(text);
    L.TextRoundTrip(text);
    StandardAgain(Encode(text));
    assert safe[|PREFIX|..] == UrlSafe(Encode(text)) && link[|PREFIX|..] == Encode(text);
    assert TextOf(safe) == text == TextOf(link);
  }

  /** A link that says nothing but its transport gives a new node with that transport. */
  lemma {:induction false} SparseLink(network: string)
    requires KnownNetwork(network)
    ensures NodeFromJson(Obj(map["net" := Str(network)])) == Ok(NEW_NODE.(network := network))
    ensures NodeFromJson(Obj(map[])) == Ok(NEW_NODE)
  {
    var j := Obj(map["net" := Str(network)]);
    assert j.fields.Keys == {"net"};
    assert PlainNode(j) == Ok(NEW_NODE.(network := network));
  }

  lemma {:induction false} TransportFields(n: Node)
    requires KnownNetwork(n.network)
    ensures
      var j, c := LinkJson(n), CarriedBy(n);
      && StringOr(j, "type", "none") == Ok(c.kind)
      && StringOr(j, "host", "") == Ok(c.host) && StringOr(j, "path", "") == Ok(c.path)
  {
    assert forall k :: k in CarriedFields(n) ==> LinkJson(n).fields[k] == CarriedFields(n)[k];
  }

  lemma CarriedBack(n: Node, m: Node)
    requires Sendable(n) && m.network == n.network
    requires m.tcp == TCP0 && m.ws == WS0 && m.h2 == H20 && m.quic == QUIC0 && m.kcp == KCP0
    ensures
      var l := Linked(n);
      WithCarried(m, CarriedBy(n))
      == m.(tcp := l.tcp, ws := l.ws, quic := l.quic, kcp := l.kcp,
            h2 := if n.network == "h2" then H2(n.h2.path, L.HostsThrough(n.h2.hosts)) else H20)
  {
  }

  /** The fields every transport has are read back, the port and alterId from their digits. */
  lemma {:induction false} PlainRoundTrip(n: Node)
    ensures PlainNode(LinkJson(n))
         == Ok(NEW_NODE.(remark := n.remark, address := n.address, port := n.port, userId := n.userId,
                         alterId := n.alterId, security := n.security, network := n.network, tls := Used(n).tls))
  {
    PlainBack(n);
    TlsBack(n);
    NumbersBack(n);
  }

  /** Reading back the JSON of a link gives the node as far as a link can carry it, exactly when
      an HTTP/2 node's hosts are free of commas and not the list of one empty host. */
  lemma {:induction false} FieldsRoundTrip(n: Node)
    requires Sendable(n)
    ensures NodeFromJson(LinkJson(n)) == Ok(Linked(n)) <==> (n.network == "h2" ==> L.Linkable(n.h2.hosts))
    ensures NodeFromJson(LinkJson(n)).Ok?
  {
    PlainRoundTrip(n);
    TlsBack(n);
    TransportFields(n);
    L.HostsSurvive(n.h2.hosts);
    var m := NEW_NODE.(remark := n.remark, address := n.address, port := n.port, userId := n.userId,
                       alterId := n.alterId, security := n.security, network := n.network, tls := n.tls);
    CarriedBack(n, m);
  }

  /** Decoding the link of a node gives the node back as far as a link can carry it, exactly
      when an HTTP/2 node's hosts survive; for every printer and parser of JSON that agree on
      this node's object, whose text is not empty and does not end in a zero byte. */
  lemma {:induction false} LinkRoundTrip(n: Node, dump: Json -> seq<Byte>, parse: seq<Byte> -> Option<Json>)
    requires Sendable(n)
    requires
      var text := dump(LinkJson(n));
      text != [] && text[|text| - 1] != 0 && parse(text) == Some(LinkJson(n))
    ensures DecodeLink(EncodeLink(n, dump), parse) == Decoded(Linked(n))
       <==> (n.network == "h2" ==> L.Linkable(n.h2.hosts))
  {
    var text := dump(LinkJson(n));
    var link := EncodeLink(n, dump);
    assert link[|PREFIX|..] == Encode(text);
    L.TextRoundTrip(text);
    FieldsRoundTrip(n);
  }

  /** What a link brings back of an accepted node is accepted again, under any tag that fits the
      pattern. */
  lemma LinkedIsAccepted(n: Node, tag: string, v5Core: bool, p: Patterns)
    requires Accepted(n, v5Core, p) && tag != ""
    ensures Accepted(Linked(n).(tag := tag), v5Core, p)
  {
  }
}

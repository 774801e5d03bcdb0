/** A VMess node, and what the validator accepts. */
module VmNode {
  import opened Json

  datatype Tcp = Tcp(header: string)
  datatype Ws = Ws(path: string, host: string)
  datatype H2 = H2(path: string, hosts: seq<string>)
  datatype Quic = Quic(security: string, key: string, header: string)
  datatype Kcp = Kcp(mtu: Int32, tti: Int32, uplink: Int32, downlink: Int32, congestion: bool, header: string)
  datatype Tls = Tls(allowInsecure: bool, serverName: string)

  datatype Node = Node(tag: string, address: string, port: Port, userId: string, alterId: Int32,
                       security: string, network: string, tls: string, remark: string,
                       tcp: Tcp, ws: Ws, h2: H2, quic: Quic, kcp: Kcp, tlsConfig: Tls)

  const TCP0 := Tcp("none")
  const WS0 := Ws("/", "")
  const H20 := H2("/", [])
  const QUIC0 := Quic("none", "", "none")
  const KCP0 := Kcp(1350, 20, 5, 20, false, "none")
  const TLS0 := Tls(false, "")

  const NEW_NODE := Node("", "", 443, "", 0, "auto", "tcp", "none", "", TCP0, WS0, H20, QUIC0, KCP0, TLS0)

  predicate KnownNetwork(network: string) {
    network == "tcp" || network == "ws" || network == "h2" || network == "quic" || network == "kcp"
  }

  /** A node without the settings its transport and TLS mode do not use. */
  function Used(n: Node): Node {
    n.(tls := if n.tls == "tls" then "tls" else "none",
       tcp := if n.network == "tcp" then n.tcp else TCP0,
       ws := if n.network == "ws" then n.ws else WS0,
       h2 := if n.network == "h2" then n.h2 else H20,
       quic := if n.network == "quic" then n.quic else QUIC0,
       kcp := if n.network == "kcp" then n.kcp else KCP0,
       tlsConfig := if n.tls == "tls" then n.tlsConfig else TLS0)
  }

  /** What the three regular expressions say of a node's tag, address and user id. */
  datatype Patterns = Patterns(tag: bool, address: bool, userId: bool)

  function Accepted(n: Node, v5Core: bool, p: Patterns): bool {
    && n.tag != "" && p.tag
    && n.address != "" && p.address
    && n.port != 0
    && n.userId != "" && p.userId
    && !(v5Core && n.alterId != 0) && 0 <= n.alterId <= 65535
    && (n.security == "auto" || n.security == "aes-128-gcm" || n.security == "chacha20-poly1305"
        || n.security == "none" || n.security == "zero")
    && KnownNetwork(n.network)
    && (n.tls == "none" || n.tls == "tls")
    && |n.remark| <= 128
    && (n.network == "tcp" ==> n.tcp.header == "none" || n.tcp.header == "http")
    && (n.network == "ws" ==> n.ws.path != "")
    && (n.network == "h2" ==> n.h2.path != "")
    && (n.network == "quic" ==> n.quic.security == "none" || n.quic.security == "aes-128-gcm"
                                || n.quic.security == "chacha20-poly1305")
    && (n.network == "kcp" ==> 576 <= n.kcp.mtu <= 1500 && 10 <= n.kcp.tti <= 100
                               && 1 <= n.kcp.uplink <= 65535 && 1 <= n.kcp.downlink <= 65535)
  }
}

/** The v2ray configuration: outbounds built from nodes, and routing rules redirected to the
    active node, inside whatever else the configuration holds. */
module ConfigBuilder {
  import opened Json
  import opened VmNode
  import L = LinkCodec

  // ----- one node's outbound ---------------------------------------------------------

  function HeaderSettings(kind: string): Json { Obj(map["type" := Str(kind)]) }

  function TcpSettings(c: Tcp): Json { Obj(map["header" := HeaderSettings(c.header)]) }

  function WsSettings(c: Ws): Json {
    var path := map["path" := Str(c.path)];
    Obj(if c.host == "" then path else path["headers" := Obj(map["Host" := Str(c.host)])])
  }

  function Strings(s: seq<string>): (j: seq<Json>)
    ensures |j| == |s| && forall i :: 0 <= i < |s| ==> j[i] == Str(s[i])
  {
    if s == [] then [] else Strings(s[..|s| - 1]) + [Str(s[|s| - 1])]
  }

  function H2Settings(c: H2): Json {
    var path := map["path" := Str(c.path)];
    Obj(if c.hosts == [] then path else path["host" := Arr(Strings(c.hosts))])
  }

  function QuicSettings(c: Quic): Json {
    Obj(map["security" := Str(c.security), "key" := Str(c.key), "header" := HeaderSettings(c.header)])
  }

  function KcpSettings(c: Kcp): Json {
    Obj(map["mtu" := Num(c.mtu), "tti" := Num(c.tti), "uplinkCapacity" := Num(c.uplink),
            "downlinkCapacity" := Num(c.downlink), "congestion" := Bool(c.congestion),
            "header" := HeaderSettings(c.header)])
  }

  function TlsSettings(c: Tls): Json {
    var base := map["allowInsecure" := Bool(c.allowInsecure)];
    Obj(if c.serverName == "" then base else base["serverName" := Str(c.serverName)])
  }

  function TransportSettings(n: Node): map<string, Json> {
    if n.network == "tcp" then map["tcpSettings" := TcpSettings(n.tcp)]
    else if n.network == "ws" then map["wsSettings" := WsSettings(n.ws)]
    else if n.network == "h2" then map["httpSettings" := H2Settings(n.h2)]
    else if n.network == "quic" then map["quicSettings" := QuicSettings(n.quic)]
    else if n.network == "kcp" then map["kcpSettings" := KcpSettings(n.kcp)]
    else map[]
  }

  function StreamSettings(n: Node): Json {
    var base := map["network" := Str(n.network), "security" := Str(if n.tls == "tls" then "tls" else "none")]
                + TransportSettings(n);
    Obj(if n.tls == "tls" then base["tlsSettings" := TlsSettings(n.tlsConfig)] else base)
  }

  function User(n: Node): Json {
    Obj(map["id" := Str(n.userId), "alterId" := Num(n.alterId), "security" := Str(n.security)])
  }

  function Server(n: Node): Json {
    Obj(map["address" := Str(n.address), "port" := Num(n.port), "users" := Arr([User(n)])])
  }

  function Outbound(n: Node): Json {
    Obj(map["tag" := Str(n.tag), "protocol" := Str("vmess"),
            "settings" := Obj(map["vnext" := Arr([Server(n)])]),
            "streamSettings" := StreamSettings(n)])
  }

  // ----- the whole configuration -----------------------------------------------------

  /** What inserting the braced default rule puts into the rules: the one object it is meant to
      be, or, with the overload of insert that takes a list of elements, its three members as
      arrays of two strings. */
  datatype Insertion = OneObject | ThreeElements

  function DefaultRule(how: Insertion, active: string): seq<Json> {
    match how
    case OneObject =>
      [Obj(map["type" := Str("field"), "outboundTag" := Str(active), "network" := Str("tcp,udp")])]
    case ThreeElements =>
      [Arr([Str("type"), Str("field")]), Arr([Str("outboundTag"), Str(active)]),
       Arr([Str("network"), Str("tcp,udp")])]
  }

  /** find("vmess-") == 0. */
  predicate IsVmessTag(tag: string) { "vmess-" <= tag }

  /** The prefix alone is such a tag. */
  lemma {:induction false} VmessTagIs(tag: string)
    ensures IsVmessTag(tag) <==> exists rest: string :: tag == "vmess-" + rest
  {
    if IsVmessTag(tag) { assert tag == "vmess-" + tag[|"vmess-"|..]; }
  }

  predicate IsVmessRule(rule: Json) {
    Contains(rule, "outboundTag") && rule.fields["outboundTag"].Str? && IsVmessTag(rule.fields["outboundTag"].s)
  }

  function Redirected(rule: Json, active: string): Json {
    if IsVmessRule(rule) then Obj(rule.fields["outboundTag" := Str(active)]) else rule
  }

  /** The rules with every vmess rule redirected; throws on a rule that is not an object, or
      whose tag is not a string. */
  function RedirectAll(rules: seq<Json>, active: string): Result<seq<Json>> {
    if rules == [] then Ok([])
    else
      var front :- RedirectAll(rules[..|rules| - 1], active);
      var last := rules[|rules| - 1];
      var tag :- StringOr(last, "outboundTag", "");
      Ok(front + [Redirected(last, active)])
  }

  predicate AnyVmess(rules: seq<Json>) { exists i :: 0 <= i < |rules| && IsVmessRule(rules[i]) }

  function FieldsOf(j: Json): map<string, Json> { if j.Obj? then j.fields else map[] }

  function RoutingOf(config: map<string, Json>): map<string, Json> {
    if "routing" in config then FieldsOf(config["routing"]) else map[]
  }

  function RulesOf(config: map<string, Json>): seq<Json> {
    var routing := RoutingOf(config);
    if "rules" in routing && routing["rules"].Arr? then routing["rules"].items else []
  }

  function NewRules(how: Insertion, rules: seq<Json>, active: string): Result<seq<Json>> {
    var redirected :- RedirectAll(rules, active);
    Ok(if AnyVmess(rules) then redirected else DefaultRule(how, active) + redirected)
  }

  const DIRECT := Obj(map["protocol" := Str("freedom"), "tag" := Str("direct")])
  const BLOCK := Obj(map["protocol" := Str("blackhole"), "tag" := Str("block")])

  function VmessOutbounds(nodes: seq<Node>): (j: seq<Json>)
    ensures |j| == |nodes|
  {
    if nodes == [] then [] else VmessOutbounds(nodes[..|nodes| - 1]) + [Outbound(nodes[|nodes| - 1])]
  }

  function Outbounds(nodes: seq<Node>): Json { Arr(VmessOutbounds(nodes) + [DIRECT, BLOCK]) }

  const DEFAULT_INBOUNDS := Arr([
    Obj(map["tag" := Str("socks-in"), "port" := Num(10808), "listen" := Str("127.0.0.1"),
            "protocol" := Str("socks"),
            "settings" := Obj(map["auth" := Str("noauth"), "udp" := Bool(true)]),
            "sniffing" := Obj(map["enabled" := Bool(true),
                                  "destOverride" := Arr([Str("http"), Str("tls")])])]),
    Obj(map["tag" := Str("http-in"), "port" := Num(10809), "listen" := Str("127.0.0.1"),
            "protocol" := Str("http"), "settings" := Obj(map[])])])

  function InboundsOf(config: map<string, Json>): Json {
    if "inbounds" in config && config["inbounds"].Arr? && config["inbounds"].items != []
    then config["inbounds"] else DEFAULT_INBOUNDS
  }

  function LogOf(config: map<string, Json>): Json {
    if "log" in config then config["log"] else Obj(map["loglevel" := Str("warning")])
  }

  function ActiveTag(nodes: seq<Node>, active: string): string {
    if active == "" && nodes != [] then nodes[0].tag else active
  }

  function NewRouting(how: Insertion, config: map<string, Json>, active: string): Result<Json> {
    if active == "" then Ok(Obj(RoutingOf(config)))
    else
      var rules :- NewRules(how, RulesOf(config), active);
      Ok(Obj(RoutingOf(config)["rules" := Arr(rules)]))
  }

  function FullConfig(how: Insertion, nodes: seq<Node>, existing: Json, active: string): Result<Json> {
    var config := FieldsOf(existing);
    var routing :- NewRouting(how, config, ActiveTag(nodes, active));
    Ok(Obj(config["outbounds" := Outbounds(nodes)]["routing" := routing]
                 ["inbounds" := InboundsOf(config)]["log" := LogOf(config)]))
  }

  method BuildFullConfig(how: Insertion, nodes: seq<Node>, existing: Json, active: string)
    returns (r: Result<Json>)
    ensures r == FullConfig(how, nodes, existing, active)
  {
    var config: map<string, Json> := if existing.Obj? then existing.fields else map[];
    ghost var base := config;
    var outbounds := BuildOutbounds(nodes);
    config := config["outbounds" := outbounds];
    OtherKeys(base, outbounds);

    var tag := active;
    if tag == "" && nodes != [] { tag := nodes[0].tag; }
    var routed := BuildRouting(how, config, tag);
    if routed.Threw? { return Threw; }
    ghost var routing := routed.value["routing"];
    assert routed.value == base["outbounds" := outbounds]["routing" := routing];
    LaterKeys(base, outbounds, routing);
    config := AddDefaults(routed.value);
    return Ok(Obj(config));
  }

  method BuildRouting(how: Insertion, existing: map<string, Json>, tag: string)
    returns (r: Result<map<string, Json>>)
    ensures r == match NewRouting(how, existing, tag)
                 case Threw => Threw
                 case Ok(routing) => Ok(existing["routing" := routing])
  {
    var config := existing;
    if "routing" !in config || !config["routing"].Obj? {
      config := config["routing" := Obj(map[])];
    }
    var routing := config["routing"].fields;
    if tag != "" {
      var rules := if "rules" in routing && routing["rules"].Arr? then routing["rules"].items else [];
      var built := BuildRules(how, rules, tag);
      if built.Threw? { return Threw; }
      config := config["routing" := Obj(routing["rules" := Arr(built.value)])];
    }
    assert "routing" in config && existing["routing" := config["routing"]] == config;
    return Ok(config);
  }

  lemma OtherKeys(config: map<string, Json>, outbounds: Json)
    ensures RoutingOf(config["outbounds" := outbounds]) == RoutingOf(config)
    ensures RulesOf(config["outbounds" := outbounds]) == RulesOf(config)
  {
  }

  lemma LaterKeys(config: map<string, Json>, outbounds: Json, routing: Json)
    ensures InboundsOf(config["outbounds" := outbounds]["routing" := routing]) == InboundsOf(config)
    ensures LogOf(config["outbounds" := outbounds]["routing" := routing]) == LogOf(config)
  {
  }

  method BuildOutbounds(nodes: seq<Node>) returns (j: Json)
    ensures j == Outbounds(nodes)
  {
    var outbounds: seq<Json> := [];
    for i := 0 to |nodes|
      invariant outbounds == VmessOutbounds(nodes[..i])
    {
      assert nodes[..i + 1][..i] == nodes[..i];
      outbounds := outbounds + [Outbound(nodes[i])];
    }
    assert nodes[..|nodes|] == nodes;
    outbounds := outbounds + [DIRECT];
    outbounds := outbounds + [BLOCK];
    return Arr(outbounds);
  }

  method AddDefaults(existing: map<string, Json>) returns (config: map<string, Json>)
    ensures config == existing["inbounds" := InboundsOf(existing)]["log" := LogOf(existing)]
  {
    config := existing;
    if "inbounds" !in config || !config["inbounds"].Arr? || config["inbounds"].items == [] {
      config := config["inbounds" := DEFAULT_INBOUNDS];
    }
    if "log" !in config {
      config := config["log" := Obj(map["loglevel" := Str("warning")])];
    }
  }

  method BuildRules(how: Insertion, rules: seq<Json>, active: string) returns (r: Result<seq<Json>>)
    ensures r == NewRules(how, rules, active)
  {
    var renewed: seq<Json> := [];
    var found := false;
    for i := 0 to |rules|
      invariant RedirectAll(rules[..i], active) == Ok(renewed)
      invariant found == AnyVmess(rules[..i])
    {
      var rule := rules[i];
      assert rules[..i + 1][..i] == rules[..i];
      var tag := StringOr(rule, "outboundTag", "");
      if tag.Threw? {
        ThrowsOnward(rules, i + 1, active);
        return Threw;
      }
      if "vmess-" <= tag.value {
        assert rules[..i + 1][i] == rule && IsVmessRule(rule);
        rule := Obj(rule.fields["outboundTag" := Str(active)]);
        found := true;
      }
      renewed := renewed + [rule];
    }
    assert rules[..|rules|] == rules;
    if !found {
      renewed := DefaultRule(how, active) + renewed;
    }
    return Ok(renewed);
  }

  lemma {:induction false} ThrowsOnward(rules: seq<Json>, n: nat, active: string)
    requires n <= |rules| && RedirectAll(rules[..n], active).Threw?
    ensures RedirectAll(rules, active).Threw?
    decreases |rules|
  {
    if n == |rules| {
      assert rules[..n] == rules;
    } else {
      assert rules[..|rules| - 1][..n] == rules[..n];
      ThrowsOnward(rules[..|rules| - 1], n, active);
    }
  }

  // ----- what redirecting does -------------------------------------------------------

  /** The rule is an object and its tag, if it has one, a string. */
  predicate WellFormed(rule: Json) { StringOr(rule, "outboundTag", "").Ok? }

  /** Redirection goes through exactly when every rule is well formed; then the rules stay in
      place, every vmess rule carries the active tag and is otherwise as it was, and every other
      rule is untouched. */
  lemma {:induction false} RedirectsVmessOnly(rules: seq<Json>, active: string)
    ensures RedirectAll(rules, active).Ok? <==> forall i :: 0 <= i < |rules| ==> WellFormed(rules[i])
    ensures RedirectAll(rules, active).Ok? ==>
      var renewed := RedirectAll(rules, active).value;
      |renewed| == |rules| && forall i :: 0 <= i < |rules| ==> renewed[i] == Redirected(rules[i], active)
  {
    if rules != [] { RedirectsVmessOnly(rules[..|rules| - 1], active); }
  }

  /** The rules after a build: no vmess rule points elsewhere than to the active tag, the rules
      that were there follow in their order, and a default is put before them exactly when none
      of them was a vmess rule. */
  lemma {:induction false} RulesAfterBuild(how: Insertion, rules: seq<Json>, active: string)
    requires NewRules(how, rules, active).Ok?
    ensures
      var renewed := NewRules(how, rules, active).value;
      var added := if AnyVmess(rules) then 0 else |DefaultRule(how, active)|;
      && |renewed| == added + |rules|
      && (forall i :: 0 <= i < |renewed| && IsVmessRule(renewed[i]) ==> renewed[i].fields["outboundTag"] == Str(active))
      && (forall i :: 0 <= i < |rules| ==>
            if IsVmessRule(rules[i])
            then renewed[added + i] == Obj(rules[i].fields["outboundTag" := Str(active)])
            else renewed[added + i] == rules[i])
  {
    RedirectsVmessOnly(rules, active);
  }

  /** A key has the same value after as before, or neither has it. */
  predicate SameAt(before: map<string, Json>, after: map<string, Json>, key: string) {
    (key in before <==> key in after) && (key in before ==> before[key] == after[key])
  }

  /** A build touches the four parts it is about, and keeps what there is of two of them: no
      other key changes, nor any key of the routing but its rules; inbounds and a log that are
      there stay, and whatever was missing is there afterwards. */
  lemma {:induction false} BuildKeeps(how: Insertion, nodes: seq<Node>, existing: Json, active: string, key: string)
    requires FullConfig(how, nodes, existing, active).Ok?
    ensures
      var c, config := FieldsOf(existing), FullConfig(how, nodes, existing, active).value;
      && config.Obj? && (forall k :: k in {"outbounds", "routing", "inbounds", "log"} ==> k in config.fields)
      && (key !in {"outbounds", "routing", "inbounds", "log"} ==> SameAt(c, config.fields, key))
      && (key != "rules" ==> SameAt(RoutingOf(c), RoutingOf(config.fields), key))
      && ("log" in c ==> SameAt(c, config.fields, "log"))
      && ("inbounds" in c && c["inbounds"].Arr? && c["inbounds"].items != [] ==> SameAt(c, config.fields, "inbounds"))
      && config.fields["inbounds"].Arr? && config.fields["inbounds"].items != []
  {
    var config := FullConfig(how, nodes, existing, active).value;
    assert config.fields["inbounds"] == InboundsOf(FieldsOf(existing));
  }

  predicate Listens(inbound: Json, protocol: string, port: int) {
    && StringOr(inbound, "protocol", "") == Ok(protocol) && StringOr(inbound, "listen", "") == Ok("127.0.0.1")
    && inbound.Obj? && "port" in inbound.fields && inbound.fields["port"] == Num(port)
  }

  /** What is filled in where nothing was: SOCKS and HTTP on two local ports, and a log of warnings. */
  lemma {:induction false} FilledIn(how: Insertion, nodes: seq<Node>, existing: Json, active: string)
    requires FullConfig(how, nodes, existing, active).Ok?
    ensures
      var c, config := FieldsOf(existing), FullConfig(how, nodes, existing, active).value.fields;
      && ("log" !in c ==> StringOr(config["log"], "loglevel", "") == Ok("warning"))
      && ("inbounds" !in c || !c["inbounds"].Arr? || c["inbounds"].items == [] ==>
            && |config["inbounds"].items| == 2
            && Listens(config["inbounds"].items[0], "socks", 10808)
            && Listens(config["inbounds"].items[1], "http", 10809))
  {
    var config := FullConfig(how, nodes, existing, active).value;
    assert config.fields["inbounds"] == InboundsOf(FieldsOf(existing));
  }

  /** Whether a rule of the routing's field kind sends a network's traffic to a tag. */
  ghost predicate Sends(rule: Json, network: string, tag: string) {
    && rule.Obj? && "type" in rule.fields && rule.fields["type"] == Str("field")
    && "outboundTag" in rule.fields && rule.fields["outboundTag"] == Str(tag)
    && "network" in rule.fields && rule.fields["network"].Str? && network in L.Split(rule.fields["network"].s)
  }

  /** The default sends all TCP and all UDP to the active node. */
  lemma {:induction false} DefaultSendsAll(rules: seq<Json>, active: string)
    requires NewRules(OneObject, rules, active).Ok? && !AnyVmess(rules)
    ensures
      var renewed := NewRules(OneObject, rules, active).value;
      renewed != [] && Sends(renewed[0], "tcp", active) && Sends(renewed[0], "udp", active)
  {
    L.SplitJoin(["tcp", "udp"]);
    assert "tcp,udp" == L.Join(["tcp", "udp"]);
  }

  /** Put in as elements, it is the list of that one object's members. */
  lemma ElementsAreMembers(active: string)
    ensures
      var whole, elements := DefaultRule(OneObject, active)[0], DefaultRule(ThreeElements, active);
      && (forall k :: k in whole.fields ==> Arr([Str(k), whole.fields[k]]) in elements)
      && (forall e :: e in elements ==>
            exists k :: k in whole.fields && e == Arr([Str(k), whole.fields[k]]))
  {
  }

  // ----- switching forgets -----------------------------------------------------------

  lemma {:induction false} RedirectTwice(rules: seq<Json>, a: string, b: string)
    requires RedirectAll(rules, a).Ok? && IsVmessTag(a)
    ensures RedirectAll(RedirectAll(rules, a).value, b) == RedirectAll(rules, b)
    ensures AnyVmess(RedirectAll(rules, a).value) <==> AnyVmess(rules)
  {
    RedirectsVmessOnly(rules, a);
    RedirectsVmessOnly(rules, b);
    var once := RedirectAll(rules, a).value;
    RedirectsVmessOnly(once, b);
    forall i | 0 <= i < |rules| ensures IsVmessRule(once[i]) <==> IsVmessRule(rules[i]) {
    }
    if AnyVmess(rules) {
      var i :| 0 <= i < |rules| && IsVmessRule(rules[i]);
      assert IsVmessRule(once[i]);
    }
    forall i | 0 <= i < |rules| ensures Redirected(once[i], b) == Redirected(rules[i], b) {
      RedirectedTwice(rules[i], a, b);
    }
    assert RedirectAll(once, b).value == RedirectAll(rules, b).value;
  }

  lemma {:induction false} RedirectedTwice(rule: Json, a: string, b: string)
    requires IsVmessTag(a)
    ensures Redirected(Redirected(rule, a), b) == Redirected(rule, b)
    ensures WellFormed(rule) ==> WellFormed(Redirected(rule, a))
  {
    if IsVmessRule(rule) {
      assert rule.fields["outboundTag" := Str(a)]["outboundTag" := Str(b)] == rule.fields["outboundTag" := Str(b)];
    }
  }

  /** When the rules left by switching to a lead to the same rules for b as the first ones. */
  predicate Forgettable(how: Insertion, rules: seq<Json>, a: string) {
    IsVmessTag(a) && (how.OneObject? || AnyVmess(rules))
  }

  lemma {:induction false} RedirectPush(head: seq<Json>, rules: seq<Json>, active: string)
    requires RedirectAll(head, active).Ok? && RedirectAll(rules, active).Ok?
    ensures RedirectAll(head + rules, active) == Ok(RedirectAll(head, active).value + RedirectAll(rules, active).value)
  {
    if rules == [] {
      assert head + rules == head;
      var done := RedirectAll(head, active).value;
      assert RedirectAll(rules, active).value == [] && done + [] == done;
    } else {
      var front, last := rules[..|rules| - 1], rules[|rules| - 1];
      RedirectPush(head, front, active);
      assert (head + rules)[..|head + rules| - 1] == head + front;
      var h, f, x := RedirectAll(head, active).value, RedirectAll(front, active).value, Redirected(last, active);
      assert h + f + [x] == h + (f + [x]);
    }
  }

  lemma {:induction false} NoVmessUntouched(rules: seq<Json>, active: string)
    requires RedirectAll(rules, active).Ok? && !AnyVmess(rules)
    ensures RedirectAll(rules, active) == Ok(rules)
  {
    RedirectsVmessOnly(rules, active);
    assert RedirectAll(rules, active).value == rules;
  }

  /** A default rule put in once is found and redirected the next time. */
  lemma {:induction false} DefaultRedirected(rules: seq<Json>, a: string, b: string)
    requires RedirectAll(rules, b).Ok? && !AnyVmess(rules) && IsVmessTag(a)
    ensures NewRules(OneObject, DefaultRule(OneObject, a) + rules, b) == NewRules(OneObject, rules, b)
  {
    var d, e := DefaultRule(OneObject, a), DefaultRule(OneObject, b);
    NoVmessUntouched(rules, b);
    assert d[0].fields["outboundTag" := Str(b)] == e[0].fields;
    assert d[..0] == [] && Redirected(d[0], b) == e[0];
    assert RedirectAll(d, b) == Ok(e) by { assert [] + [e[0]] == e; }
    RedirectPush(d, rules, b);
    assert IsVmessRule((d + rules)[0]);
  }

  /** After a switch to a tag without the prefix no rule is recognized any more. */
  lemma {:induction false} NoneRecognized(how: Insertion, rules: seq<Json>, a: string)
    requires NewRules(how, rules, a).Ok? && !IsVmessTag(a)
    ensures !AnyVmess(NewRules(how, rules, a).value)
  {
    RedirectsVmessOnly(rules, a);
  }

  lemma {:induction false} ElementsThrow(rules: seq<Json>, a: string, b: string)
    ensures NewRules(ThreeElements, DefaultRule(ThreeElements, a) + rules, b).Threw?
  {
    var all := DefaultRule(ThreeElements, a) + rules;
    RedirectsVmessOnly(all, b);
    assert !WellFormed(all[0]);
  }

  lemma {:induction false} RulesForget(how: Insertion, rules: seq<Json>, a: string, b: string)
    requires NewRules(how, rules, b).Ok?
    ensures NewRules(how, rules, a).Ok?
    ensures NewRules(how, NewRules(how, rules, a).value, b) == NewRules(how, rules, b)
       <==> Forgettable(how, rules, a)
  {
    RedirectsVmessOnly(rules, a);
    RedirectsVmessOnly(rules, b);
    var once := NewRules(how, rules, a).value;
    if AnyVmess(rules) && IsVmessTag(a) {
      RedirectTwice(rules, a, b);
    } else if !AnyVmess(rules) {
      NoVmessUntouched(rules, a);
      if how.ThreeElements? {
        ElementsThrow(rules, a, b);
      } else if IsVmessTag(a) {
        DefaultRedirected(rules, a, b);
      }
    }
    if !IsVmessTag(a) {
      NoneRecognized(how, rules, a);
      RedirectsVmessOnly(once, b);
    }
  }

  /** What a build leaves in the configuration, as far as the next build looks at it. */
  lemma BuiltFields(how: Insertion, nodes: seq<Node>, existing: Json, active: string)
    requires FullConfig(how, nodes, existing, active).Ok? && ActiveTag(nodes, active) != ""
    ensures
      var c, d := FieldsOf(existing), FieldsOf(FullConfig(how, nodes, existing, active).value);
      var rules := NewRules(how, RulesOf(c), ActiveTag(nodes, active));
      && rules.Ok? && RulesOf(d) == rules.value
      && RoutingOf(d) == RoutingOf(c)["rules" := Arr(rules.value)]
      && InboundsOf(d) == InboundsOf(c) && LogOf(d) == LogOf(c)
  {
  }

  /** Switching to a and then to b builds the same configuration as switching to b at once, for
      any nodes listed at either time, exactly when a carries the prefix and the rules had a
      vmess rule before or were given one. In particular rebuilding is then a fixpoint. */
  lemma {:induction false} SwitchForgets(how: Insertion, before: seq<Node>, nodes: seq<Node>, existing: Json,
                                         a: string, b: string)
    requires ActiveTag(before, a) != "" && ActiveTag(nodes, b) != ""
    requires FullConfig(how, nodes, existing, b).Ok?
    ensures FullConfig(how, before, existing, a).Ok?
    ensures FullConfig(how, nodes, FullConfig(how, before, existing, a).value, b) == FullConfig(how, nodes, existing, b)
       <==> Forgettable(how, RulesOf(FieldsOf(existing)), ActiveTag(before, a))
  {
    var c := FieldsOf(existing);
    RulesForget(how, RulesOf(c), ActiveTag(before, a), ActiveTag(nodes, b));
    BuiltFields(how, before, existing, a);
    BuiltFields(how, nodes, existing, b);
    var once := FullConfig(how, before, existing, a).value;
    if FullConfig(how, nodes, once, b).Ok? {
      BuiltFields(how, nodes, once, b);
      SameRules(how, before, nodes, existing, a, b);
    }
  }

  lemma {:induction false} SameRules(how: Insertion, before: seq<Node>, nodes: seq<Node>, existing: Json,
                                     a: string, b: string)
    requires ActiveTag(before, a) != "" && ActiveTag(nodes, b) != ""
    requires FullConfig(how, before, existing, a).Ok? && FullConfig(how, nodes, existing, b).Ok?
    requires FullConfig(how, nodes, FullConfig(how, before, existing, a).value, b).Ok?
    ensures
      var c, once := FieldsOf(existing), FullConfig(how, before, existing, a).value;
      FullConfig(how, nodes, once, b) == FullConfig(how, nodes, existing, b)
      <==> NewRules(how, RulesOf(FieldsOf(once)), ActiveTag(nodes, b)) == NewRules(how, RulesOf(c), ActiveTag(nodes, b))
  {
    var c, once := FieldsOf(existing), FullConfig(how, before, existing, a).value;
    BuiltFields(how, before, existing, a);
    BuiltFields(how, nodes, existing, b);
    BuiltFields(how, nodes, once, b);
    var x, y := FullConfig(how, nodes, once, b).value, FullConfig(how, nodes, existing, b).value;
    if RulesOf(x.fields) == RulesOf(y.fields) {
      var rules := Arr(RulesOf(y.fields));
      assert RoutingOf(once.fields)["rules" := rules] == RoutingOf(c)["rules" := rules];
      assert RoutingOf(x.fields) == RoutingOf(y.fields);
      OverwriteTwice(c, Outbounds(before), FieldsOf(once)["routing"], Outbounds(nodes),
        x.fields["routing"], InboundsOf(c), LogOf(c));
    }
  }

  lemma OverwriteTwice(c: map<string, Json>, o1: Json, r1: Json, o2: Json, r2: Json, i: Json, l: Json)
    ensures
      var once := c["outbounds" := o1]["routing" := r1]["inbounds" := i]["log" := l];
      once["outbounds" := o2]["routing" := r2]["inbounds" := i]["log" := l]
      == c["outbounds" := o2]["routing" := r2]["inbounds" := i]["log" := l]
  {
  }
}

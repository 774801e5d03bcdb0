/** Loading the node list and the active tag from a v2ray configuration and the remarks kept
    beside it, against what saving writes there. */
module ConfigLoader {
  import opened Wrappers
  import opened Json
  import opened VmNode
  import opened ConfigBuilder
  import opened NodeParser

  function ParseNodes(outbounds: seq<Json>): Result<seq<Node>> {
    if outbounds == [] then Ok([])
    else
      var front :- ParseNodes(outbounds[..|outbounds| - 1]);
      var last := outbounds[|outbounds| - 1];
      var protocol :- StringOr(last, "protocol", "");
      if protocol == "vmess" then
        var n :- ParseOutbound(last);
        match n
        case None => Ok(front)
        case Some(node) => Ok(front + [node])
      else Ok(front)
  }

  function RemarkFor(remarks: Json, n: Node): Result<Node> {
    if Contains(remarks, "remarks") && Contains(remarks.fields["remarks"], n.tag) then
      var remark :- AsString(remarks.fields["remarks"].fields[n.tag]);
      Ok(n.(remark := remark))
    else Ok(n)
  }

  function WithRemarks(nodes: seq<Node>, remarks: Json): Result<seq<Node>> {
    if nodes == [] then Ok([])
    else
      var front :- WithRemarks(nodes[..|nodes| - 1], remarks);
      var last :- RemarkFor(remarks, nodes[|nodes| - 1]);
      Ok(front + [last])
  }

  /** The scan ends at the first vmess tag, and throws at a malformed rule before it. */
  function FirstVmessTag(rules: seq<Json>): Result<Option<string>> {
    if rules == [] then Ok(None)
    else
      var tag :- StringOr(rules[0], "outboundTag", "");
      if IsVmessTag(tag) then Ok(Some(tag)) else FirstVmessTag(rules[1..])
  }

  /** What the scan finds, by place: the first vmess rule, unless a malformed one comes before it. */
  lemma {:induction false} FirstVmessIs(rules: seq<Json>, i: nat)
    requires i < |rules| && (IsVmessRule(rules[i]) || !WellFormed(rules[i]))
    requires forall j :: 0 <= j < i ==> WellFormed(rules[j]) && !IsVmessRule(rules[j])
    ensures FirstVmessTag(rules)
         == if WellFormed(rules[i]) then Ok(Some(rules[i].fields["outboundTag"].s)) else Threw
  {
    if i > 0 { FirstVmessIs(rules[1..], i - 1); }
  }

  lemma {:induction false} NoVmessFound(rules: seq<Json>)
    requires forall j :: 0 <= j < |rules| ==> WellFormed(rules[j]) && !IsVmessRule(rules[j])
    ensures FirstVmessTag(rules) == Ok(None)
  {
    if rules != [] { NoVmessFound(rules[1..]); }
  }

  function OutboundsOf(config: Json): seq<Json> {
    if Contains(config, "outbounds") && config.fields["outbounds"].Arr?
    then config.fields["outbounds"].items else []
  }

  function NodesIn(config: Json, remarks: Json): Result<seq<Node>> {
    var parsed :- ParseNodes(OutboundsOf(config));
    WithRemarks(parsed, remarks)
  }

  datatype Loaded = Loaded(nodes: seq<Node>, active: string, threw: bool)

  /** What loading makes of the manager's nodes and active tag. */
  function Load(config: Json, remarks: Json, nodes: seq<Node>, active: string): Loaded {
    if !config.Obj? then Loaded([], active, false)
    else
      match NodesIn(config, remarks)
      case Threw => Loaded(nodes, active, true)
      case Ok(found) =>
        match FirstVmessTag(RulesOf(config.fields))
        case Threw => Loaded(found, active, true)
        case Ok(tag) =>
          var chosen := if tag.Some? then tag.value else active;
          Loaded(found, ActiveTag(found, chosen), false)
  }

  /** The active tag after loading: the first vmess rule's; without one, the tag from before; and
      without that the first node's. */
  lemma {:induction false} LoadedActive(config: Json, remarks: Json, nodes: seq<Node>, active: string, i: nat)
    requires config.Obj? && !Load(config, remarks, nodes, active).threw
    ensures
      var r, rules := Load(config, remarks, nodes, active), RulesOf(config.fields);
      && (i < |rules| && IsVmessRule(rules[i])
          && (forall j :: 0 <= j < i ==> WellFormed(rules[j]) && !IsVmessRule(rules[j]))
          ==> Str(r.active) == rules[i].fields["outboundTag"])
      && ((forall j :: 0 <= j < |rules| ==> WellFormed(rules[j]) && !IsVmessRule(rules[j]))
          ==> r.active == if active != "" || r.nodes == [] then active else r.nodes[0].tag)
  {
    var rules := RulesOf(config.fields);
    if forall j :: 0 <= j < |rules| ==> WellFormed(rules[j]) && !IsVmessRule(rules[j]) {
      NoVmessFound(rules);
    } else if i < |rules| && IsVmessRule(rules[i])
              && forall j :: 0 <= j < i ==> WellFormed(rules[j]) && !IsVmessRule(rules[j])
    {
      FirstVmessIs(rules, i);
    }
  }

  /** A malformed rule with no vmess rule, nor another malformed one, before it. */
  ghost predicate Stops(rules: seq<Json>, i: nat) {
    && i < |rules| && !WellFormed(rules[i])
    && forall j :: 0 <= j < i ==> WellFormed(rules[j]) && !IsVmessRule(rules[j])
  }

  lemma {:induction false} ScanThrows(rules: seq<Json>)
    ensures FirstVmessTag(rules).Threw? <==> exists i: nat :: Stops(rules, i)
  {
    if rules != [] {
      ScanThrows(rules[1..]);
      if FirstVmessTag(rules).Threw? && WellFormed(rules[0]) {
        var i: nat :| Stops(rules[1..], i);
        assert Stops(rules, i + 1);
      } else if !WellFormed(rules[0]) {
        assert Stops(rules, 0);
      } else if exists i: nat :: Stops(rules, i) {
        var i: nat :| Stops(rules, i);
        assert Stops(rules[1..], i - 1);
      }
    }
  }

  /** Loading throws exactly for nodes or remarks that cannot be read, with all as it was, or for a
      rule, with the nodes in place; and no configuration means no nodes. */
  lemma {:induction false} LoadThrows(config: Json, remarks: Json, nodes: seq<Node>, active: string)
    ensures
      var r := Load(config, remarks, nodes, active);
      if !config.Obj? then r == Loaded([], active, false)
      else if NodesIn(config, remarks).Threw? then r == Loaded(nodes, active, true)
      else r.nodes == NodesIn(config, remarks).value && (r.threw <==> exists i: nat :: Stops(RulesOf(config.fields), i))
  {
    if config.Obj? { ScanThrows(RulesOf(config.fields)); }
  }

  function RemarkMap(nodes: seq<Node>): map<string, Json> {
    if nodes == [] then map[]
    else
      var front, last := RemarkMap(nodes[..|nodes| - 1]), nodes[|nodes| - 1];
      if last.remark != "" then front[last.tag := Str(last.remark)] else front
  }

  function RemarksFile(nodes: seq<Node>): Json {
    Obj(map["version" := Num(1), "remarks" := Obj(RemarkMap(nodes))])
  }

  // ----- nodes -----------------------------------------------------------------------

  predicate Tagged(nodes: seq<Node>) {
    forall i :: 0 <= i < |nodes| ==> nodes[i].tag != ""
  }

  predicate DistinctTags(nodes: seq<Node>) {
    forall i, j :: 0 <= i < j < |nodes| ==> nodes[i].tag != nodes[j].tag
  }

  predicate KnownNetworks(nodes: seq<Node>) {
    forall i :: 0 <= i < |nodes| ==> KnownNetwork(nodes[i].network)
  }

  function UsedAll(nodes: seq<Node>): (u: seq<Node>)
    ensures |u| == |nodes| && forall i :: 0 <= i < |nodes| ==> u[i] == Used(nodes[i])
  {
    if nodes == [] then [] else UsedAll(nodes[..|nodes| - 1]) + [Used(nodes[|nodes| - 1])]
  }

  function Bare(nodes: seq<Node>): seq<Node> {
    if nodes == [] then [] else Bare(nodes[..|nodes| - 1]) + [Used(nodes[|nodes| - 1]).(remark := "")]
  }

  lemma {:induction false} ParseVmess(nodes: seq<Node>)
    requires Tagged(nodes) && KnownNetworks(nodes)
    ensures ParseNodes(VmessOutbounds(nodes)) == Ok(Bare(nodes))
  {
    if nodes != [] {
      var front, last := nodes[..|nodes| - 1], nodes[|nodes| - 1];
      ParseVmess(front);
      OutboundRoundTrip(last);
      var o := VmessOutbounds(nodes);
      assert o[..|o| - 1] == VmessOutbounds(front);
    }
  }

  lemma {:induction false} ParseOthers(outbounds: seq<Json>)
    requires ParseNodes(outbounds).Ok?
    ensures ParseNodes(outbounds + [DIRECT, BLOCK]) == ParseNodes(outbounds)
  {
    var one, two := outbounds + [DIRECT], outbounds + [DIRECT, BLOCK];
    assert one[..|outbounds|] == outbounds && two[..|one|] == one;
    assert StringOr(DIRECT, "protocol", "") == Ok("freedom") && "freedom" != "vmess";
    assert StringOr(BLOCK, "protocol", "") == Ok("blackhole");
    assert ParseNodes(one) == ParseNodes(outbounds);
  }

  lemma {:induction false} RemarkMapOf(nodes: seq<Node>, i: nat)
    requires DistinctTags(nodes) && i < |nodes|
    ensures nodes[i].tag in RemarkMap(nodes) <==> nodes[i].remark != ""
    ensures nodes[i].remark != "" ==> RemarkMap(nodes)[nodes[i].tag] == Str(nodes[i].remark)
  {
    var front := nodes[..|nodes| - 1];
    if i < |front| {
      RemarkMapOf(front, i);
    } else {
      NoRemark(front, nodes[i].tag);
    }
  }

  lemma {:induction false} NoRemark(nodes: seq<Node>, tag: string)
    requires forall i :: 0 <= i < |nodes| ==> nodes[i].tag != tag
    ensures tag !in RemarkMap(nodes)
  {
    if nodes != [] { NoRemark(nodes[..|nodes| - 1], tag); }
  }

  function FindTag(nodes: seq<Node>, tag: string): (i: nat)
    ensures i <= |nodes|
    ensures i < |nodes| ==> nodes[i].tag == tag
    ensures forall j :: 0 <= j < i ==> nodes[j].tag != tag
  {
    if nodes == [] || nodes[0].tag == tag then 0 else 1 + FindTag(nodes[1..], tag)
  }

  /** The remark that a list has for a tag. */
  function RemarkIn(nodes: seq<Node>, tag: string): string {
    if FindTag(nodes, tag) < |nodes| then nodes[FindTag(nodes, tag)].remark else ""
  }

  lemma {:induction false} RemarkRead(noted: seq<Node>, n: Node)
    requires DistinctTags(noted)
    ensures RemarkFor(RemarksFile(noted), Used(n).(remark := "")) == Ok(Used(n).(remark := RemarkIn(noted, n.tag)))
  {
    var file, i := RemarksFile(noted), FindTag(noted, n.tag);
    assert file.fields["remarks"] == Obj(RemarkMap(noted));
    if i < |noted| { RemarkMapOf(noted, i); } else { NoRemark(noted, n.tag); }
    assert Used(n).tag == n.tag;
  }

  /** The nodes with the remarks that another list has for their tags. */
  function Renoted(nodes: seq<Node>, noted: seq<Node>): (r: seq<Node>)
    ensures |r| == |nodes|
    ensures forall i :: 0 <= i < |nodes| ==> r[i] == Used(nodes[i]).(remark := RemarkIn(noted, nodes[i].tag))
  {
    if nodes == [] then []
    else
      var last := nodes[|nodes| - 1];
      Renoted(nodes[..|nodes| - 1], noted) + [Used(last).(remark := RemarkIn(noted, last.tag))]
  }

  /** Bare nodes get the remarks of the list whose remarks were written. */
  lemma {:induction false} RemarksRead(noted: seq<Node>, nodes: seq<Node>)
    requires DistinctTags(noted)
    ensures WithRemarks(Bare(nodes), RemarksFile(noted)) == Ok(Renoted(nodes, noted))
  {
    if nodes != [] {
      var front, last := nodes[..|nodes| - 1], nodes[|nodes| - 1];
      RemarksRead(noted, front);
      RemarkRead(noted, last);
      var b := Bare(nodes);
      assert b[..|b| - 1] == Bare(front);
    }
  }

  lemma {:induction false} OwnRemarks(nodes: seq<Node>)
    requires DistinctTags(nodes)
    ensures Renoted(nodes, nodes) == UsedAll(nodes)
  {
    forall i | 0 <= i < |nodes| ensures FindTag(nodes, nodes[i].tag) == i {
    }
    forall i | 0 <= i < |nodes| ensures Renoted(nodes, nodes)[i] == UsedAll(nodes)[i] {
      assert Used(nodes[i]).remark == nodes[i].remark;
    }
  }

  lemma OutboundsKept(how: Insertion, nodes: seq<Node>, existing: Json, active: string)
    requires FullConfig(how, nodes, existing, active).Ok?
    ensures
      var config := FullConfig(how, nodes, existing, active).value;
      && Contains(config, "outbounds") && config.fields["outbounds"] == Outbounds(nodes)
      && OutboundsOf(config) == VmessOutbounds(nodes) + [DIRECT, BLOCK]
  {
  }

  /** The configuration that saving writes holds the nodes in order, without their remarks. */
  lemma {:induction false} ConfiguredNodes(how: Insertion, nodes: seq<Node>, existing: Json, active: string)
    requires Tagged(nodes) && KnownNetworks(nodes)
    requires FullConfig(how, nodes, existing, active).Ok?
    ensures ParseNodes(OutboundsOf(FullConfig(how, nodes, existing, active).value)) == Ok(Bare(nodes))
  {
    OutboundsKept(how, nodes, existing, active);
    ParseVmess(nodes);
    ParseOthers(VmessOutbounds(nodes));
  }

  /** Loading what saving wrote brings back the nodes, in order and with their remarks, but for
      settings their transport and TLS mode do not use. */
  lemma {:induction false} NodesRoundTrip(how: Insertion, nodes: seq<Node>, existing: Json, active: string)
    requires Tagged(nodes) && DistinctTags(nodes) && KnownNetworks(nodes)
    requires FullConfig(how, nodes, existing, active).Ok?
    ensures NodesIn(FullConfig(how, nodes, existing, active).value, RemarksFile(nodes)) == Ok(UsedAll(nodes))
  {
    ConfiguredNodes(how, nodes, existing, active);
    RemarksRead(nodes, nodes);
    OwnRemarks(nodes);
  }

  // ----- the active tag --------------------------------------------------------------

  lemma {:induction false} FirstTagIs(rules: seq<Json>, active: string)
    requires forall i :: 0 <= i < |rules| ==> WellFormed(rules[i])
    requires forall i :: 0 <= i < |rules| && IsVmessRule(rules[i]) ==> rules[i].fields["outboundTag"] == Str(active)
    ensures FirstVmessTag(rules) == Ok(if AnyVmess(rules) then Some(active) else None)
  {
    if rules != [] {
      FirstTagIs(rules[1..], active);
      if AnyVmess(rules[1..]) {
        var i :| 0 <= i < |rules[1..]| && IsVmessRule(rules[1..][i]);
        assert IsVmessRule(rules[i + 1]);
      }
      assert !IsVmessTag("");
      if AnyVmess(rules) && !IsVmessRule(rules[0]) {
        var i :| 0 <= i < |rules| && IsVmessRule(rules[i]);
        assert IsVmessRule(rules[1..][i - 1]);
      }
    }
  }

  /** The saved rules can be scanned unless the default rule went in as three elements. */
  lemma {:induction false} SavedRulesScan(how: Insertion, rules: seq<Json>, active: string)
    requires NewRules(how, rules, active).Ok?
    ensures
      var saved := NewRules(how, rules, active).value;
      FirstVmessTag(saved)
      == if how.ThreeElements? && !AnyVmess(rules) then Threw
         else if IsVmessTag(active) then Ok(Some(active)) else Ok(None)
  {
    var saved := NewRules(how, rules, active).value;
    RulesAfterBuild(how, rules, active);
    RedirectsVmessOnly(rules, active);
    if how.OneObject? || AnyVmess(rules) {
      SavedRulesWellFormed(how, rules, active);
      FirstTagIs(saved, active);
      SavedRulesVmess(how, rules, active);
    } else {
      assert !WellFormed(saved[0]);
    }
  }

  lemma {:induction false} SavedRulesWellFormed(how: Insertion, rules: seq<Json>, active: string)
    requires NewRules(how, rules, active).Ok? && (how.OneObject? || AnyVmess(rules))
    ensures forall i :: 0 <= i < |NewRules(how, rules, active).value| ==>
      WellFormed(NewRules(how, rules, active).value[i])
  {
    RedirectsVmessOnly(rules, active);
  }

  lemma {:induction false} SavedRulesVmess(how: Insertion, rules: seq<Json>, active: string)
    requires NewRules(how, rules, active).Ok? && (how.OneObject? || AnyVmess(rules))
    ensures AnyVmess(NewRules(how, rules, active).value) <==> IsVmessTag(active)
  {
    var saved := NewRules(how, rules, active).value;
    RedirectsVmessOnly(rules, active);
    if AnyVmess(rules) && IsVmessTag(active) {
      var i :| 0 <= i < |rules| && IsVmessRule(rules[i]);
      assert IsVmessRule(saved[i]);
    } else if IsVmessTag(active) {
      assert IsVmessRule(saved[0]);
    } else {
      NoneRecognized(how, rules, active);
    }
  }

  /** A new manager that loads what was saved with an active tag has the nodes and, exactly
      when that tag begins with "vmess-" or is the first node's, the active tag; unless the
      default rule was put in as three elements: then loading throws with the nodes in place. */
  lemma {:induction false} SaveLoadRoundTrip(how: Insertion, nodes: seq<Node>, existing: Json, active: string)
    requires Tagged(nodes) && DistinctTags(nodes) && KnownNetworks(nodes)
    requires FullConfig(how, nodes, existing, active).Ok? && ActiveTag(nodes, active) != ""
    ensures
      var t := ActiveTag(nodes, active);
      var r := Load(FullConfig(how, nodes, existing, active).value, RemarksFile(nodes), [], "");
      && r.nodes == UsedAll(nodes)
      && (r.threw <==> how.ThreeElements? && !AnyVmess(RulesOf(FieldsOf(existing))))
      && (!r.threw ==> (r.active == t <==> IsVmessTag(t) || (nodes != [] && nodes[0].tag == t)))
  {
    NodesRoundTrip(how, nodes, existing, active);
    BuiltFields(how, nodes, existing, active);
    SavedRulesScan(how, RulesOf(FieldsOf(existing)), ActiveTag(nodes, active));
  }
}

/** The list of VMess nodes: adding, updating, removing and importing, each followed by a save
    that may fail or throw. */
module NodeManager {
  import opened Json
  import opened VmNode
  import opened ConfigBuilder
  import opened ConfigLoader
  import Decimal

  /** The manager's fields, and the two files it keeps; a missing file reads as Null. */
  datatype Store = Store(nodes: seq<Node>, active: string, config: Json, remarks: Json)

  /** Whether the configuration file and the remarks file can be written. */
  datatype Disk = Disk(config: bool, remarks: bool)

  datatype Reply = Done | Refused | Exception

  // ----- saving ----------------------------------------------------------------------

  /** The check made on a configuration before it is written. */
  predicate ValidConfig(config: Json) {
    && Contains(config, "inbounds") && config.fields["inbounds"].Arr?
    && Contains(config, "outbounds") && config.fields["outbounds"].Arr?
  }

  function Saved(how: Insertion, s: Store, disk: Disk): (Store, Reply) {
    match FullConfig(how, s.nodes, s.config, s.active)
    case Threw => (s, Exception)
    case Ok(config) =>
      if !ValidConfig(config) || !disk.config then (s, Refused)
      else (s.(config := config, remarks := if disk.remarks then RemarksFile(s.nodes) else s.remarks), Done)
  }

  /** What is built always passes the check, so only the disk makes a save fail. */
  lemma {:induction false} BuiltIsValid(how: Insertion, nodes: seq<Node>, existing: Json, active: string)
    requires FullConfig(how, nodes, existing, active).Ok?
    ensures ValidConfig(FullConfig(how, nodes, existing, active).value)
  {
    OutboundsKept(how, nodes, existing, active);
    var config := FullConfig(how, nodes, existing, active).value;
    assert config.fields["inbounds"] == InboundsOf(FieldsOf(existing));
  }

  lemma {:induction false} SaveOutcome(how: Insertion, s: Store, disk: Disk)
    ensures Saved(how, s, disk).0.nodes == s.nodes && Saved(how, s, disk).0.active == s.active
    ensures Saved(how, s, disk).1 == Exception <==>
      ActiveTag(s.nodes, s.active) != ""
      && exists i :: 0 <= i < |RulesOf(FieldsOf(s.config))| && !WellFormed(RulesOf(FieldsOf(s.config))[i])
    ensures Saved(how, s, disk).1 == Refused <==> Saved(how, s, disk).1 != Exception && !disk.config
  {
    RedirectsVmessOnly(RulesOf(FieldsOf(s.config)), ActiveTag(s.nodes, s.active));
    if FullConfig(how, s.nodes, s.config, s.active).Ok? {
      BuiltIsValid(how, s.nodes, s.config, s.active);
    }
  }

  // ----- operations ------------------------------------------------------------------

  predicate TagUnique(nodes: seq<Node>, tag: string, exclude: string) {
    forall i :: 0 <= i < |nodes| ==> nodes[i].tag != tag || nodes[i].tag == exclude
  }

  function Added(how: Insertion, v5: bool, s: Store, node: Node, p: Patterns, disk: Disk): (Store, Reply) {
    if !Accepted(node, v5, p) || !TagUnique(s.nodes, node.tag, "") then (s, Refused)
    else
      var (t, reply) := Saved(how, s.(nodes := s.nodes + [node]), disk);
      if reply == Refused then (t.(nodes := t.nodes[..|t.nodes| - 1]), Refused) else (t, reply)
  }

  function Changed(how: Insertion, v5: bool, s: Store, tag: string, node: Node, p: Patterns,
                   disk: Disk): (Store, Reply) {
    var i := FindTag(s.nodes, tag);
    if !Accepted(node, v5, p) || !TagUnique(s.nodes, node.tag, tag) || i == |s.nodes| then (s, Refused)
    else
      var (t, reply) := Saved(how, s.(nodes := s.nodes[i := node]), disk);
      if reply == Refused then
        var k := FindTag(t.nodes, node.tag);
        (if k < |t.nodes| then t.(nodes := t.nodes[k := s.nodes[i]]) else t, Refused)
      else (t, reply)
  }

  function Removed(how: Insertion, s: Store, tag: string, disk: Disk): (Store, Reply) {
    var i := FindTag(s.nodes, tag);
    if |s.nodes| <= 1 || i == |s.nodes| then (s, Refused)
    else
      var (t, reply) := Saved(how, s.(nodes := Without(s.nodes, i)), disk);
      if reply == Refused then (t.(nodes := t.nodes + [s.nodes[i]]), Refused) else (t, reply)
  }

  function Without(nodes: seq<Node>, i: nat): seq<Node>
    requires i < |nodes|
  {
    nodes[..i] + nodes[i + 1..]
  }

  function MovedBack(nodes: seq<Node>, i: nat): seq<Node>
    requires i < |nodes|
  {
    Without(nodes, i) + [nodes[i]]
  }

  /** The tag tried n-th when a tag is generated. */
  function AutoTag(n: nat): string { "vmess-" + Decimal.ToString(n) }

  predicate HasTag(nodes: seq<Node>, tag: string) { exists i :: 0 <= i < |nodes| && nodes[i].tag == tag }

  /** n is the smallest positive number whose tag is free. */
  predicate LeastFree(nodes: seq<Node>, n: nat) {
    n >= 1 && !HasTag(nodes, AutoTag(n)) && forall i :: 1 <= i < n ==> HasTag(nodes, AutoTag(i))
  }

  /** `node` is what the link decodes to. */
  function Imported(how: Insertion, v5: bool, s: Store, node: Node, n: nat, p: Patterns, disk: Disk): (Store, Reply)
    requires LeastFree(s.nodes, n)
  {
    var tagged := node.(tag := AutoTag(n));
    if !Accepted(tagged, v5, p) then (s, Refused)
    else
      var (t, reply) := Saved(how, s.(nodes := s.nodes + [tagged]), disk);
      if reply == Refused then
        (if t.nodes != [] && t.nodes[|t.nodes| - 1].tag == tagged.tag
         then t.(nodes := t.nodes[..|t.nodes| - 1]) else t, Refused)
      else (t, reply)
  }

  // ----- the search for a free tag ends ----------------------------------------------

  function Tags(nodes: seq<Node>): (s: set<string>)
    ensures forall tag :: tag in s <==> HasTag(nodes, tag)
  {
    set i | 0 <= i < |nodes| :: nodes[i].tag
  }

  lemma {:induction false} TagCount(nodes: seq<Node>)
    ensures |Tags(nodes)| <= |nodes|
  {
    if nodes != [] {
      var front := nodes[..|nodes| - 1];
      TagCount(front);
      assert Tags(nodes) == Tags(front) + {nodes[|nodes| - 1].tag};
    }
  }

  function AutoTags(n: nat): set<string> {
    set i | 1 <= i <= n :: AutoTag(i)
  }

  lemma {:induction false} AutoTagCount(n: nat)
    ensures |AutoTags(n)| == n
  {
    if n > 0 {
      AutoTagCount(n - 1);
      forall i | 1 <= i < n ensures AutoTag(i) != AutoTag(n) {
        AutoTagInjective(i, n);
      }
      assert AutoTags(n) == AutoTags(n - 1) + {AutoTag(n)};
    }
  }

  lemma {:induction false} AutoTagInjective(m: nat, n: nat)
    ensures AutoTag(m) == AutoTag(n) ==> m == n
  {
    assert AutoTag(m)[6..] == Decimal.ToString(m) && AutoTag(n)[6..] == Decimal.ToString(n);
    if AutoTag(m) == AutoTag(n) {
      Decimal.ToStringInjective(m, n);
    }
  }

  /** As many numbers as there are nodes can have their tags taken, and no more. */
  lemma {:induction false} Pigeonhole(nodes: seq<Node>, n: nat)
    requires forall i :: 1 <= i <= n ==> HasTag(nodes, AutoTag(i))
    ensures n <= |nodes|
  {
    TagCount(nodes);
    AutoTagCount(n);
    assert AutoTags(n) <= Tags(nodes);
    assert Tags(nodes) == AutoTags(n) + (Tags(nodes) - AutoTags(n));
  }

  /** Of all positive numbers whose tags no node has, it is the least. */
  lemma LeastFreeIs(nodes: seq<Node>, n: nat)
    ensures LeastFree(nodes, n) <==>
      && n >= 1 && !HasTag(nodes, AutoTag(n))
      && forall m: nat :: m >= 1 && !HasTag(nodes, AutoTag(m)) ==> n <= m
  {
  }

  /** The tag of the least free number, which is at most one more than there are nodes. */
  ghost predicate IsAutoTag(nodes: seq<Node>, tag: string) {
    exists n: nat :: LeastFree(nodes, n) && n <= |nodes| + 1 && tag == AutoTag(n)
  }

  method GenerateAutoTag(nodes: seq<Node>) returns (tag: string)
    ensures IsAutoTag(nodes, tag)
  {
    var k := 1;
    while true
      invariant k >= 1 && forall i :: 1 <= i < k ==> HasTag(nodes, AutoTag(i))
      decreases |nodes| + 1 - k
    {
      Pigeonhole(nodes, k - 1);
      tag := "vmess-" + Decimal.ToString(k);
      if FindTag(nodes, tag) == |nodes| {
        assert LeastFree(nodes, k);
        return tag;
      }
      k := k + 1;
      Pigeonhole(nodes, k - 1);
    }
  }

  // ----- tags stay distinct ----------------------------------------------------------

  /** What every operation keeps. */
  predicate Proper(nodes: seq<Node>) { Tagged(nodes) && DistinctTags(nodes) }

  lemma {:induction false} AddKeepsDistinct(how: Insertion, v5: bool, s: Store, node: Node, p: Patterns, disk: Disk)
    requires Proper(s.nodes)
    ensures Proper(Added(how, v5, s, node, p, disk).0.nodes)
  {
    SaveOutcome(how, s.(nodes := s.nodes + [node]), disk);
  }

  lemma {:induction false} ChangeKeepsDistinct(how: Insertion, v5: bool, s: Store, tag: string, node: Node,
                                               p: Patterns, disk: Disk)
    requires Proper(s.nodes)
    ensures Proper(Changed(how, v5, s, tag, node, p, disk).0.nodes)
  {
    var i := FindTag(s.nodes, tag);
    if Accepted(node, v5, p) && TagUnique(s.nodes, node.tag, tag) && i < |s.nodes| {
      ReplacedIsFound(s.nodes, i, node);
      SaveOutcome(how, s.(nodes := s.nodes[i := node]), disk);
    }
  }

  /** After a change the search for the new tag finds the changed node. */
  lemma {:induction false} ReplacedIsFound(nodes: seq<Node>, i: nat, node: Node)
    requires Proper(nodes) && i < |nodes| && node.tag != "" && TagUnique(nodes, node.tag, nodes[i].tag)
    ensures Proper(nodes[i := node])
    ensures FindTag(nodes[i := node], node.tag) == i
    ensures nodes[i := node][i := nodes[i]] == nodes
  {
    var n := nodes[i := node];
    forall j | 0 <= j < |nodes| && j != i ensures n[j].tag != node.tag {
      assert nodes[j].tag != nodes[i].tag;
    }
    assert n[i].tag == node.tag;
  }

  lemma {:induction false} RemoveKeepsDistinct(how: Insertion, s: Store, tag: string, disk: Disk)
    requires Proper(s.nodes)
    ensures Proper(Removed(how, s, tag, disk).0.nodes)
  {
    var i := FindTag(s.nodes, tag);
    if |s.nodes| > 1 && i < |s.nodes| {
      WithoutOne(s.nodes, i);
      SaveOutcome(how, s.(nodes := Without(s.nodes, i)), disk);
    }
  }

  lemma {:induction false} WithoutOne(nodes: seq<Node>, i: nat)
    requires Proper(nodes) && i < |nodes|
    ensures Proper(Without(nodes, i)) && Proper(MovedBack(nodes, i))
  {
    var rest := Without(nodes, i);
    forall j | 0 <= j < |rest| ensures rest[j] == nodes[if j < i then j else j + 1] {
    }
  }

  lemma SameElements<T>(a: seq<T>, x: T, b: seq<T>)
    ensures multiset(a + b + [x]) == multiset(a + [x] + b)
  {
  }

  lemma {:induction false} MovedToEnd(nodes: seq<Node>, i: nat)
    requires DistinctTags(nodes) && i < |nodes|
    ensures multiset(MovedBack(nodes, i)) == multiset(nodes)
    ensures MovedBack(nodes, i) == nodes <==> nodes[|nodes| - 1].tag == nodes[i].tag
  {
    var back := MovedBack(nodes, i);
    SameElements(nodes[..i], nodes[i], nodes[i + 1..]);
    assert nodes == nodes[..i] + [nodes[i]] + nodes[i + 1..];
    assert back[|back| - 1] == nodes[i];
    if i == |nodes| - 1 { assert back == nodes; }
  }

  lemma {:induction false} ImportKeepsDistinct(how: Insertion, v5: bool, s: Store, node: Node, n: nat,
                                               p: Patterns, disk: Disk)
    requires Proper(s.nodes) && LeastFree(s.nodes, n)
    ensures Proper(Imported(how, v5, s, node, n, p, disk).0.nodes)
  {
    SaveOutcome(how, s.(nodes := s.nodes + [node.(tag := AutoTag(n))]), disk);
  }

  // ----- failed saves ----------------------------------------------------------------

  /** A refused addition, change or import leaves everything as it was. */
  lemma {:induction false} RefusedAddUndone(how: Insertion, v5: bool, s: Store, node: Node, p: Patterns, disk: Disk)
    requires Added(how, v5, s, node, p, disk).1 == Refused
    ensures Added(how, v5, s, node, p, disk).0 == s
  {
    assert (s.nodes + [node])[..|s.nodes|] == s.nodes;
  }

  lemma {:induction false} RefusedChangeUndone(how: Insertion, v5: bool, s: Store, tag: string, node: Node,
                                               p: Patterns, disk: Disk)
    requires Proper(s.nodes) && Changed(how, v5, s, tag, node, p, disk).1 == Refused
    ensures Changed(how, v5, s, tag, node, p, disk).0 == s
  {
    var i := FindTag(s.nodes, tag);
    if Accepted(node, v5, p) && TagUnique(s.nodes, node.tag, tag) && i < |s.nodes| {
      ReplacedIsFound(s.nodes, i, node);
    }
  }

  lemma {:induction false} RefusedImportUndone(how: Insertion, v5: bool, s: Store, node: Node, n: nat,
                                               p: Patterns, disk: Disk)
    requires LeastFree(s.nodes, n) && Imported(how, v5, s, node, n, p, disk).1 == Refused
    ensures Imported(how, v5, s, node, n, p, disk).0 == s
  {
    assert (s.nodes + [node.(tag := AutoTag(n))])[..|s.nodes|] == s.nodes;
  }

  lemma RefusedRemoval(how: Insertion, s: Store, tag: string, disk: Disk)
    requires Removed(how, s, tag, disk).1 == Refused
    ensures
      var t, i := Removed(how, s, tag, disk).0, FindTag(s.nodes, tag);
      if |s.nodes| <= 1 || i == |s.nodes| then t == s else t == s.(nodes := MovedBack(s.nodes, i))
  {
  }

  lemma {:induction false} NotFound(nodes: seq<Node>, tag: string)
    ensures FindTag(nodes, tag) == |nodes| <==> !HasTag(nodes, tag)
  {
    var i := FindTag(nodes, tag);
    if i < |nodes| { assert nodes[i].tag == tag; }
  }

  /** A refused removal puts the node back at the end: the same nodes, and in the same order
      exactly when the removal was turned down before it was tried or the node was the last. */
  lemma {:induction false} RefusedRemovalReorders(how: Insertion, s: Store, tag: string, disk: Disk)
    requires Proper(s.nodes) && Removed(how, s, tag, disk).1 == Refused
    ensures multiset(Removed(how, s, tag, disk).0.nodes) == multiset(s.nodes)
    ensures Removed(how, s, tag, disk).0 == s <==>
      |s.nodes| <= 1 || !HasTag(s.nodes, tag) || s.nodes[|s.nodes| - 1].tag == tag
  {
    var i := FindTag(s.nodes, tag);
    RefusedRemoval(how, s, tag, disk);
    NotFound(s.nodes, tag);
    if |s.nodes| > 1 && i < |s.nodes| { MovedToEnd(s.nodes, i); }
  }

  /** An exception in the save is not caught: the new node stays in the list, unsaved. */
  lemma ExceptionKeepsAddition(how: Insertion, v5: bool, s: Store, node: Node, p: Patterns, disk: Disk)
    requires Added(how, v5, s, node, p, disk).1 == Exception
    ensures Added(how, v5, s, node, p, disk).0 == s.(nodes := s.nodes + [node])
  {
  }

  /** With the default rule put in as three elements, a manager that starts without a vmess rule,
      from an empty configuration for instance, can save one list that is not empty; every later
      save of one throws. */
  lemma {:induction false} SecondSaveThrows(s: Store, disk: Disk, later: seq<Node>, again: Disk)
    requires ActiveTag(s.nodes, s.active) != "" && ActiveTag(later, s.active) != ""
    requires !AnyVmess(RulesOf(FieldsOf(s.config))) && Saved(ThreeElements, s, disk).1 == Done
    ensures Saved(ThreeElements, Saved(ThreeElements, s, disk).0.(nodes := later), again).1 == Exception
  {
    var t := Saved(ThreeElements, s, disk).0.(nodes := later);
    var tag := ActiveTag(s.nodes, s.active);
    BuiltFields(ThreeElements, s.nodes, s.config, s.active);
    ThreeElementsFirst(RulesOf(FieldsOf(s.config)), tag);
    assert RulesOf(FieldsOf(t.config)) == NewRules(ThreeElements, RulesOf(FieldsOf(s.config)), tag).value;
    SaveOutcome(ThreeElements, t, again);
  }

  lemma ThreeElementsFirst(rules: seq<Json>, active: string)
    requires !AnyVmess(rules) && NewRules(ThreeElements, rules, active).Ok?
    ensures
      var renewed := NewRules(ThreeElements, rules, active).value;
      renewed != [] && !WellFormed(renewed[0])
  {
  }

  // ----- the manager -----------------------------------------------------------------

  class Manager {
    const how: Insertion
    const v5: bool
    var nodes: seq<Node>
    var active: string
    var config: Json
    var remarks: Json

    ghost function Now(): Store
      reads this
    {
      Store(nodes, active, config, remarks)
    }

    constructor (how: Insertion, v5: bool, config: Json, remarks: Json)
      ensures Now() == Store([], "", config, remarks) && this.how == how && this.v5 == v5
    {
      this.how, this.v5 := how, v5;
      nodes, active := [], "";
      this.config, this.remarks := config, remarks;
    }

    method LoadFromConfig() returns (threw: bool)
      modifies this
      ensures
        var r := Load(old(config), old(remarks), old(nodes), old(active));
        Now() == Store(r.nodes, r.active, old(config), old(remarks)) && threw == r.threw
    {
      if !config.Obj? {
        nodes := [];
        return false;
      }
      var found := ReadNodes();
      if found.Threw? { return true; }
      nodes := found.value;
      var rules := RulesOf(config.fields);
      for i := 0 to |rules|
        invariant nodes == found.value && active == old(active)
        invariant config == old(config) && remarks == old(remarks)
        invariant FirstVmessTag(rules) == FirstVmessTag(rules[i..])
      {
        assert rules[i..][0] == rules[i] && rules[i..][1..] == rules[i + 1..];
        var tag := StringOr(rules[i], "outboundTag", "");
        if tag.Threw? { return true; }
        if "vmess-" <= tag.value {
          active := tag.value;
          break;
        }
      }
      if active == "" && nodes != [] { active := nodes[0].tag; }
      return false;
    }

    method ReadNodes() returns (r: Result<seq<Node>>)
      ensures r == NodesIn(config, remarks)
    {
      var parsed := ParseNodes(OutboundsOf(config));
      if parsed.Threw? { return Threw; }
      return WithRemarks(parsed.value, remarks);
    }

    method SaveToConfig(disk: Disk) returns (reply: Reply)
      modifies this
      ensures (Now(), reply) == Saved(how, old(Now()), disk)
    {
      var built := BuildFullConfig(how, nodes, config, active);
      if built.Threw? { return Exception; }
      if !ValidConfig(built.value) { return Refused; }
      if !disk.config { return Refused; }
      config := built.value;
      var noted: map<string, Json> := map[];
      for i := 0 to |nodes|
        invariant noted == RemarkMap(nodes[..i])
        invariant nodes == old(nodes)
      {
        assert nodes[..i + 1][..i] == nodes[..i];
        if nodes[i].remark != "" {
          noted := noted[nodes[i].tag := Str(nodes[i].remark)];
        }
      }
      assert nodes[..|nodes|] == nodes;
      if disk.remarks {
        remarks := Obj(map["version" := Num(1), "remarks" := Obj(noted)]);
      }
      return Done;
    }

    method IsTagUnique(tag: string, exclude: string) returns (unique: bool)
      ensures unique == TagUnique(nodes, tag, exclude)
    {
      for i := 0 to |nodes|
        invariant forall j :: 0 <= j < i ==> nodes[j].tag != tag || nodes[j].tag == exclude
      {
        if nodes[i].tag == tag && nodes[i].tag != exclude { return false; }
      }
      return true;
    }

    method AddNode(node: Node, p: Patterns, disk: Disk) returns (reply: Reply)
      modifies this
      ensures (Now(), reply) == Added(how, v5, old(Now()), node, p, disk)
    {
      if !Accepted(node, v5, p) { return Refused; }
      var unique := IsTagUnique(node.tag, "");
      if !unique { return Refused; }
      nodes := nodes + [node];
      reply := SaveToConfig(disk);
      if reply == Refused {
        nodes := nodes[..|nodes| - 1];
      }
    }

    method UpdateNode(tag: string, node: Node, p: Patterns, disk: Disk) returns (reply: Reply)
      modifies this
      ensures (Now(), reply) == Changed(how, v5, old(Now()), tag, node, p, disk)
    {
      if !Accepted(node, v5, p) { return Refused; }
      var unique := IsTagUnique(node.tag, tag);
      if !unique { return Refused; }
      var i := FindTag(nodes, tag);
      if i == |nodes| { return Refused; }
      var backup := nodes[i];
      nodes := nodes[i := node];
      reply := SaveToConfig(disk);
      if reply == Refused {
        var k := FindTag(nodes, node.tag);
        if k < |nodes| { nodes := nodes[k := backup]; }
      }
    }

    method RemoveNode(tag: string, disk: Disk) returns (reply: Reply)
      modifies this
      ensures (Now(), reply) == Removed(how, old(Now()), tag, disk)
    {
      if |nodes| <= 1 { return Refused; }
      var i := FindTag(nodes, tag);
      if i == |nodes| { return Refused; }
      var backup := nodes[i];
      nodes := nodes[..i] + nodes[i + 1..];
      reply := SaveToConfig(disk);
      if reply == Refused {
        nodes := nodes + [backup];
      }
    }

    method ImportFromLink(decoded: Node, p: Patterns, disk: Disk) returns (reply: Reply, ghost n: nat)
      modifies this
      ensures LeastFree(old(nodes), n) && n <= |old(nodes)| + 1
      ensures (Now(), reply) == Imported(how, v5, old(Now()), decoded, n, p, disk)
    {
      var tag := GenerateAutoTag(nodes);
      n :| LeastFree(nodes, n) && n <= |nodes| + 1 && tag == AutoTag(n);
      var node := decoded.(tag := tag);
      if !Accepted(node, v5, p) { return Refused, n; }
      nodes := nodes + [node];
      reply := SaveToConfig(disk);
      if reply == Refused {
        if nodes != [] && nodes[|nodes| - 1].tag == node.tag { nodes := nodes[..|nodes| - 1]; }
      }
    }

    method SetActiveNode(tag: string) returns (found: bool)
      modifies this`active
      ensures found == HasTag(nodes, tag) && active == if found then tag else old(active)
    {
      if FindTag(nodes, tag) == |nodes| { return false; }
      active := tag;
      return true;
    }
  }
}

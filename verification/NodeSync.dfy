/** The node list against the files beside it, over whole runs of the manager: what the files
    hold is what the list holds, whichever saves fail. */
module NodeSync {
  import opened Json
  import opened VmNode
  import opened ConfigBuilder
  import opened NodeParser
  import opened ConfigLoader
  import opened NodeManager

  datatype Operation =
    | Add(node: Node, p: Patterns)
    | Change(tag: string, node: Node, p: Patterns)
    | Remove(tag: string)
    | Import(node: Node, p: Patterns)
    | Activate(tag: string)
    | Apply

  /** One operation, how the disk behaved during it, and what it answered. */
  datatype Call = Call(op: Operation, disk: Disk, reply: Reply)

  function Activated(s: Store, tag: string): (Store, Reply) {
    if HasTag(s.nodes, tag) then (s.(active := tag), Done) else (s, Refused)
  }

  ghost predicate Does(how: Insertion, v5: bool, s: Store, c: Call, t: Store) {
    match c.op
    case Add(node, p) => (t, c.reply) == Added(how, v5, s, node, p, c.disk)
    case Change(tag, node, p) => (t, c.reply) == Changed(how, v5, s, tag, node, p, c.disk)
    case Remove(tag) => (t, c.reply) == Removed(how, s, tag, c.disk)
    case Import(node, p) =>
      exists n: nat :: LeastFree(s.nodes, n) && (t, c.reply) == Imported(how, v5, s, node, n, p, c.disk)
    case Activate(tag) => (t, c.reply) == Activated(s, tag)
    case Apply => (t, c.reply) == Saved(how, s, c.disk)
  }

  ghost predicate DoesAt(how: Insertion, v5: bool, run: seq<Store>, calls: seq<Call>, i: nat)
    requires i < |calls| && |run| == |calls| + 1
  {
    Does(how, v5, run[i], calls[i], run[i + 1])
  }

  ghost predicate IsRun(how: Insertion, v5: bool, run: seq<Store>, calls: seq<Call>) {
    |run| == |calls| + 1 && forall i :: 0 <= i < |calls| ==> DoesAt(how, v5, run, calls, i)
  }

  // ----- memory and files ------------------------------------------------------------

  /** The nodes that the configuration holds; the remarks are in the other file. */
  function Configured(s: Store): Result<seq<Node>> { ParseNodes(OutboundsOf(s.config)) }

  /** The configuration holds the list in its order, but for remarks and settings not in use. */
  predicate InOrder(s: Store) { Configured(s) == Ok(Bare(s.nodes)) }

  /** It holds the same nodes, in whatever order. */
  predicate SameNodes(s: Store) {
    Configured(s).Ok? && multiset(Configured(s).value) == multiset(Bare(s.nodes))
  }

  /** The remarks file has the list's remarks. */
  predicate RemarksFit(s: Store) { WithRemarks(Bare(s.nodes), s.remarks) == Ok(UsedAll(s.nodes)) }

  /** Loading both files gives the list, but for settings not in use. */
  predicate InSync(s: Store) { NodesIn(s.config, s.remarks) == Ok(UsedAll(s.nodes)) }

  predicate Sound(s: Store) { Proper(s.nodes) && KnownNetworks(s.nodes) && SameNodes(s) }

  /** A written configuration holds the list whatever becomes of the remarks, which may fail to
      be written without the save failing. */
  lemma {:induction false} SaveSyncs(how: Insertion, s: Store, disk: Disk)
    requires Proper(s.nodes) && KnownNetworks(s.nodes)
    ensures
      var (t, reply) := Saved(how, s, disk);
      if reply == Done then
        t.nodes == s.nodes && InOrder(t) && t.remarks == if disk.remarks then RemarksFile(t.nodes) else s.remarks
      else t == s
  {
    if Saved(how, s, disk).1 == Done {
      ConfiguredNodes(how, s.nodes, s.config, s.active);
    }
  }

  /** What a call leaves that is not a refused removal. */
  ghost predicate Outcome(s: Store, disk: Disk, t: Store, reply: Reply) {
    && Proper(t.nodes) && KnownNetworks(t.nodes)
    && if reply == Done then
         InOrder(t) && t.remarks == if disk.remarks then RemarksFile(t.nodes) else s.remarks
       else t == s
  }

  /** A list saved with success, with a new node or without. */
  lemma {:induction false} DoneSyncs(how: Insertion, s: Store, nodes: seq<Node>, disk: Disk)
    requires Proper(nodes) && KnownNetworks(nodes) && Saved(how, s.(nodes := nodes), disk).1 == Done
    ensures
      var t := Saved(how, s.(nodes := nodes), disk).0;
      Outcome(s, disk, t, Done) && t.nodes == nodes
  {
    SaveSyncs(how, s.(nodes := nodes), disk);
  }

  lemma AppendedIsProper(nodes: seq<Node>, node: Node)
    requires Proper(nodes) && KnownNetworks(nodes)
    requires node.tag != "" && KnownNetwork(node.network) && forall i :: 0 <= i < |nodes| ==> nodes[i].tag != node.tag
    ensures Proper(nodes + [node]) && KnownNetworks(nodes + [node])
  {
  }

  lemma {:induction false} AddSyncs(how: Insertion, v5: bool, s: Store, node: Node, p: Patterns, disk: Disk)
    requires Sound(s) && Added(how, v5, s, node, p, disk).1 != Exception
    ensures var (t, reply) := Added(how, v5, s, node, p, disk); Outcome(s, disk, t, reply)
  {
    if Added(how, v5, s, node, p, disk).1 == Refused {
      RefusedAddUndone(how, v5, s, node, p, disk);
    } else {
      AppendedIsProper(s.nodes, node);
      DoneSyncs(how, s, s.nodes + [node], disk);
    }
  }

  lemma {:induction false} ChangeSyncs(how: Insertion, v5: bool, s: Store, tag: string, node: Node,
                                       p: Patterns, disk: Disk)
    requires Sound(s) && Changed(how, v5, s, tag, node, p, disk).1 != Exception
    ensures var (t, reply) := Changed(how, v5, s, tag, node, p, disk); Outcome(s, disk, t, reply)
  {
    if Changed(how, v5, s, tag, node, p, disk).1 == Refused {
      RefusedChangeUndone(how, v5, s, tag, node, p, disk);
    } else {
      var i := FindTag(s.nodes, tag);
      ReplacedIsFound(s.nodes, i, node);
      DoneSyncs(how, s, s.nodes[i := node], disk);
    }
  }

  lemma {:induction false} ImportSyncs(how: Insertion, v5: bool, s: Store, node: Node, n: nat, p: Patterns, disk: Disk)
    requires Sound(s) && LeastFree(s.nodes, n)
    requires Imported(how, v5, s, node, n, p, disk).1 != Exception
    ensures var (t, reply) := Imported(how, v5, s, node, n, p, disk); Outcome(s, disk, t, reply)
  {
    if Imported(how, v5, s, node, n, p, disk).1 == Refused {
      RefusedImportUndone(how, v5, s, node, n, p, disk);
    } else {
      AppendedIsProper(s.nodes, node.(tag := AutoTag(n)));
      DoneSyncs(how, s, s.nodes + [node.(tag := AutoTag(n))], disk);
    }
  }

  lemma {:induction false} RefusedRemoveCases(how: Insertion, s: Store, tag: string, disk: Disk) returns (t: Store)
    requires Removed(how, s, tag, disk).1 == Refused
    ensures t == Removed(how, s, tag, disk).0
    ensures t == s || exists i :: 0 <= i < |s.nodes| && t == s.(nodes := MovedBack(s.nodes, i))
  {
    t := Removed(how, s, tag, disk).0;
    var i := FindTag(s.nodes, tag);
    RefusedRemoval(how, s, tag, disk);
    assert |s.nodes| > 1 && i < |s.nodes| ==> t == s.(nodes := MovedBack(s.nodes, i));
  }

  /** A refused removal leaves the files alone, and the configuration in the list's order exactly
      when it leaves the list in its order. */
  lemma {:induction false} RefusedRemoveSyncs(how: Insertion, s: Store, tag: string, disk: Disk)
    requires Sound(s) && Removed(how, s, tag, disk).1 == Refused
    ensures
      var t := Removed(how, s, tag, disk).0;
      && Sound(t) && t.remarks == s.remarks
      && (InOrder(s) ==> (InOrder(t) <==> t.nodes == s.nodes))
  {
    var t := RefusedRemoveCases(how, s, tag, disk);
    if t != s {
      var i :| 0 <= i < |s.nodes| && t == s.(nodes := MovedBack(s.nodes, i));
      MovedSyncs(s, i, t.nodes);
    }
  }

  lemma {:induction false} MovedSyncs(s: Store, i: nat, back: seq<Node>)
    requires Sound(s) && i < |s.nodes| && back == MovedBack(s.nodes, i)
    ensures Sound(s.(nodes := back)) && (InOrder(s) ==> (InOrder(s.(nodes := back)) <==> back == s.nodes))
  {
    WithoutOne(s.nodes, i);
    MovedBare(s.nodes, i);
    MovedSound(s, back);
  }

  lemma {:induction false} MovedSound(s: Store, nodes: seq<Node>)
    requires Sound(s) && Proper(nodes) && KnownNetworks(nodes)
    requires multiset(Bare(nodes)) == multiset(Bare(s.nodes))
    requires Bare(nodes) == Bare(s.nodes) <==> nodes == s.nodes
    ensures
      var t := s.(nodes := nodes);
      Sound(t) && (InOrder(s) ==> (InOrder(t) <==> nodes == s.nodes))
  {
    assert Configured(s.(nodes := nodes)) == Configured(s);
  }

  lemma {:induction false} StillKnown(nodes: seq<Node>, i: nat)
    requires KnownNetworks(nodes) && i < |nodes|
    ensures KnownNetworks(Without(nodes, i))
  {
    var rest := Without(nodes, i);
    forall j | 0 <= j < |rest| ensures rest[j] == nodes[if j < i then j else j + 1] {
    }
  }

  lemma {:induction false} RemoveSyncs(how: Insertion, s: Store, tag: string, disk: Disk)
    requires Sound(s) && Removed(how, s, tag, disk).1 == Done
    ensures var (t, reply) := Removed(how, s, tag, disk); Outcome(s, disk, t, reply)
  {
    var i := FindTag(s.nodes, tag);
    WithoutOne(s.nodes, i);
    StillKnown(s.nodes, i);
    DoneSyncs(how, s, Without(s.nodes, i), disk);
  }

  lemma {:induction false} BareAt(nodes: seq<Node>)
    ensures |Bare(nodes)| == |nodes|
    ensures forall i :: 0 <= i < |nodes| ==> Bare(nodes)[i] == Used(nodes[i]).(remark := "")
  {
    if nodes != [] { BareAt(nodes[..|nodes| - 1]); }
  }

  lemma {:induction false} BareConcat(a: seq<Node>, b: seq<Node>)
    ensures Bare(a + b) == Bare(a) + Bare(b)
  {
    BareAt(a);
    BareAt(b);
    BareAt(a + b);
  }

  lemma {:induction false} MovedBare(nodes: seq<Node>, i: nat)
    requires Proper(nodes) && KnownNetworks(nodes) && i < |nodes|
    ensures
      var back := MovedBack(nodes, i);
      && KnownNetworks(back)
      && multiset(Bare(back)) == multiset(Bare(nodes))
      && (Bare(back) == Bare(nodes) <==> back == nodes)
  {
    var a, x, b := nodes[..i], nodes[i], nodes[i + 1..];
    assert nodes == a + [x] + b;
    MovedSame(a, x, b);
    if b != [] {
      assert x.tag != b[0].tag;
      MovedDiffers(a, x, b);
    } else {
      assert a + b + [x] == a + [x] + b;
    }
  }

  lemma {:induction false} MovedSame(a: seq<Node>, x: Node, b: seq<Node>)
    ensures multiset(Bare(a + b + [x])) == multiset(Bare(a + [x] + b))
    ensures KnownNetworks(a + [x] + b) ==> KnownNetworks(a + b + [x])
  {
    BareConcat(a + b, [x]);
    BareConcat(a, b);
    BareConcat(a + [x], b);
    BareConcat(a, [x]);
    BareAt([x]);
    assert Bare([x]) == [Used(x).(remark := "")];
    SameElements(Bare(a), Used(x).(remark := ""), Bare(b));
    SameKnown(a, x, b);
  }

  lemma {:induction false} SameKnown(a: seq<Node>, x: Node, b: seq<Node>)
    ensures KnownNetworks(a + [x] + b) ==> KnownNetworks(a + b + [x])
  {
    var m, n := a + [x] + b, a + b + [x];
    forall j | 0 <= j < |n| ensures n[j] == m[if j < |a| then j else if j < |a| + |b| then j + 1 else |a|] {
    }
  }

  lemma {:induction false} MovedDiffers(a: seq<Node>, x: Node, b: seq<Node>)
    requires b != [] && x.tag != b[0].tag
    ensures Bare(a + b + [x]) != Bare(a + [x] + b)
  {
    BareAt(a + b + [x]);
    BareAt(a + [x] + b);
    assert Bare(a + b + [x])[|a|].tag == b[0].tag;
    assert Bare(a + [x] + b)[|a|].tag == x.tag;
  }

  /** Whether a call is a removal that was turned down and has changed the order of the list. */
  predicate Reorders(s: Store, c: Call, t: Store) {
    c.op.Remove? && c.reply == Refused && t.nodes != s.nodes
  }

  /** Whether a call has written the configuration. */
  predicate Wrote(c: Call) { c.reply == Done && !c.op.Activate? }

  /** What one call that does not throw does to the agreement of list and files. */
  lemma {:induction false} CallSyncs(how: Insertion, v5: bool, s: Store, c: Call, t: Store)
    requires Does(how, v5, s, c, t) && Sound(s) && c.reply != Exception
    ensures Sound(t)
    ensures Wrote(c) ==> InOrder(t)
    ensures InOrder(s) ==> (InOrder(t) <==> !Reorders(s, c, t))
    ensures t.remarks == if Wrote(c) && c.disk.remarks then RemarksFile(t.nodes) else s.remarks
  {
    match c.op
    case Add(node, p) => AddSyncs(how, v5, s, node, p, c.disk);
    case Change(tag, node, p) => ChangeSyncs(how, v5, s, tag, node, p, c.disk);
    case Remove(tag) =>
      if c.reply == Refused { RefusedRemoveSyncs(how, s, tag, c.disk); }
      else { RemoveSyncs(how, s, tag, c.disk); }
    case Import(node, p) => SomeImportSyncs(how, v5, s, c, t);
    case Activate(tag) =>
    case Apply => SaveSyncs(how, s, c.disk);
  }

  lemma {:induction false} SomeImportSyncs(how: Insertion, v5: bool, s: Store, c: Call, t: Store)
    requires Does(how, v5, s, c, t) && c.op.Import? && Sound(s) && c.reply != Exception
    ensures Outcome(s, c.disk, t, c.reply)
  {
    var n: nat :| LeastFree(s.nodes, n) && (t, c.reply) == Imported(how, v5, s, c.op.node, n, c.op.p, c.disk);
    ImportSyncs(how, v5, s, c.op.node, n, c.op.p, c.disk);
  }

  // ----- the remarks -----------------------------------------------------------------

  /** Loading gives the list back exactly when the configuration has its order and the remarks
      file its remarks. */
  lemma {:induction false} SyncIs(s: Store)
    ensures InSync(s) <==> InOrder(s) && RemarksFit(s)
  {
    if InSync(s) {
      var parsed := Configured(s).value;
      ParsedNodesUsed(OutboundsOf(s.config));
      RemarksKeepRest(parsed, s.remarks);
      BareAt(s.nodes);
      assert parsed == Bare(s.nodes);
    }
  }

  /** With the remarks of another list in the file, it has the list's exactly when each node's
      remark is the one that list had for its tag; none where it had no such tag. */
  lemma {:induction false} RemarksExact(s: Store, noted: seq<Node>)
    requires DistinctTags(noted) && s.remarks == RemarksFile(noted)
    ensures RemarksFit(s) <==>
      forall i :: 0 <= i < |s.nodes| ==> s.nodes[i].remark == RemarkIn(noted, s.nodes[i].tag)
  {
    RemarksRead(noted, s.nodes);
    var r, u := Renoted(s.nodes, noted), UsedAll(s.nodes);
    forall i | 0 <= i < |s.nodes|
      ensures r[i] == u[i] <==> s.nodes[i].remark == RemarkIn(noted, s.nodes[i].tag)
    {
      assert u[i].remark == s.nodes[i].remark && r[i].remark == RemarkIn(noted, s.nodes[i].tag);
      if s.nodes[i].remark == RemarkIn(noted, s.nodes[i].tag) { assert r[i] == u[i]; }
    }
    assert RemarksFit(s) <==> r == u;
    assert r == u <==> forall i :: 0 <= i < |s.nodes| ==> r[i] == u[i];
  }

  // ----- exceptions ------------------------------------------------------------------

  function Rules(s: Store): seq<Json> { RulesOf(FieldsOf(s.config)) }

  /** No save throws from here on, as long as only vmess tags are activated: the rules in the
      file are well formed, and, with the default rule put in as three elements, there is a
      vmess rule and the active tag is a vmess tag, so that it never goes in. */
  predicate SteadyRules(how: Insertion, rules: seq<Json>, active: string) {
    && (forall i :: 0 <= i < |rules| ==> WellFormed(rules[i]))
    && (how.OneObject? || (AnyVmess(rules) && IsVmessTag(active)))
  }

  predicate Steady(how: Insertion, s: Store) { SteadyRules(how, Rules(s), s.active) }

  /** Whatever the list looks like when it is saved, and whatever becomes of it afterwards. */
  lemma {:induction false} SaveSteady(how: Insertion, s: Store, disk: Disk, later: seq<Node>)
    requires SteadyRules(how, Rules(s), s.active)
    ensures
      var (t, reply) := Saved(how, s, disk);
      reply != Exception && Steady(how, t) && Steady(how, t.(nodes := later))
  {
    SaveOutcome(how, s, disk);
    var (t, reply) := Saved(how, s, disk);
    if reply == Done {
      RulesSteady(how, s.nodes, s.config, s.active);
      assert t.config == FullConfig(how, s.nodes, s.config, s.active).value;
    }
    assert Rules(t.(nodes := later)) == Rules(t);
  }

  lemma {:induction false} RulesSteady(how: Insertion, nodes: seq<Node>, config: Json, active: string)
    requires SteadyRules(how, RulesOf(FieldsOf(config)), active)
    requires FullConfig(how, nodes, config, active).Ok?
    ensures SteadyRules(how, RulesOf(FieldsOf(FullConfig(how, nodes, config, active).value)), active)
  {
    var rules, tag := RulesOf(FieldsOf(config)), ActiveTag(nodes, active);
    if tag == "" {
      RulesKept(how, nodes, config, active);
    } else {
      BuiltFields(how, nodes, config, active);
      SavedRulesWellFormed(how, rules, tag);
      SavedRulesVmess(how, rules, tag);
      assert !IsVmessTag("");
    }
  }

  lemma {:induction false} RulesKept(how: Insertion, nodes: seq<Node>, config: Json, active: string)
    requires FullConfig(how, nodes, config, active).Ok? && ActiveTag(nodes, active) == ""
    ensures RulesOf(FieldsOf(FullConfig(how, nodes, config, active).value)) == RulesOf(FieldsOf(config))
  {
    var c := FieldsOf(config);
    var d := FieldsOf(FullConfig(how, nodes, config, active).value);
    assert d["routing"] == Obj(RoutingOf(c));
  }

  lemma {:induction false} AddSteady(how: Insertion, v5: bool, s: Store, node: Node, p: Patterns, disk: Disk)
    requires Steady(how, s)
    ensures
      var (t, reply) := Added(how, v5, s, node, p, disk);
      reply != Exception && Steady(how, t)
  {
    SaveSteady(how, s.(nodes := s.nodes + [node]), disk, Added(how, v5, s, node, p, disk).0.nodes);
  }

  lemma {:induction false} ChangeSteady(how: Insertion, v5: bool, s: Store, tag: string, node: Node,
                                        p: Patterns, disk: Disk)
    requires Steady(how, s)
    ensures
      var (t, reply) := Changed(how, v5, s, tag, node, p, disk);
      reply != Exception && Steady(how, t)
  {
    var i := FindTag(s.nodes, tag);
    if i < |s.nodes| {
      SaveSteady(how, s.(nodes := s.nodes[i := node]), disk, Changed(how, v5, s, tag, node, p, disk).0.nodes);
    }
  }

  lemma {:induction false} RemoveSteady(how: Insertion, s: Store, tag: string, disk: Disk)
    requires Steady(how, s)
    ensures
      var (t, reply) := Removed(how, s, tag, disk);
      reply != Exception && Steady(how, t)
  {
    var i := FindTag(s.nodes, tag);
    if i < |s.nodes| {
      SaveSteady(how, s.(nodes := Without(s.nodes, i)), disk, Removed(how, s, tag, disk).0.nodes);
    }
  }

  lemma {:induction false} ImportSteady(how: Insertion, v5: bool, s: Store, node: Node, n: nat, p: Patterns, disk: Disk)
    requires Steady(how, s) && LeastFree(s.nodes, n)
    ensures
      var (t, reply) := Imported(how, v5, s, node, n, p, disk);
      reply != Exception && Steady(how, t)
  {
    SaveSteady(how, s.(nodes := s.nodes + [node.(tag := AutoTag(n))]), disk,
      Imported(how, v5, s, node, n, p, disk).0.nodes);
  }

  lemma {:induction false} CallSteady(how: Insertion, v5: bool, s: Store, c: Call, t: Store)
    requires Does(how, v5, s, c, t) && Steady(how, s)
    requires c.op.Activate? && how.ThreeElements? ==> IsVmessTag(c.op.tag)
    ensures c.reply != Exception && Steady(how, t)
  {
    match c.op
    case Add(node, p) => AddSteady(how, v5, s, node, p, c.disk);
    case Change(tag, node, p) => ChangeSteady(how, v5, s, tag, node, p, c.disk);
    case Remove(tag) => RemoveSteady(how, s, tag, c.disk);
    case Import(node, p) =>
      var n: nat :| LeastFree(s.nodes, n) && (t, c.reply) == Imported(how, v5, s, node, n, p, c.disk);
      ImportSteady(how, v5, s, node, n, p, c.disk);
    case Activate(tag) => assert Rules(t) == Rules(s);
    case Apply => SaveSteady(how, s, c.disk, []);
  }

  // ----- runs ------------------------------------------------------------------------

  /** Only vmess tags are activated where others would make the default rule go in as three
      elements. */
  predicate Orderly(how: Insertion, c: Call) {
    c.op.Activate? && how.ThreeElements? ==> IsVmessTag(c.op.tag)
  }

  predicate ReordersAt(run: seq<Store>, calls: seq<Call>, i: nat)
    requires i < |calls| && |run| == |calls| + 1
  {
    Reorders(run[i], calls[i], run[i + 1])
  }

  ghost predicate NoneReorders(run: seq<Store>, calls: seq<Call>)
    requires |run| == |calls| + 1
  {
    forall i :: 0 <= i < |calls| ==> !ReordersAt(run, calls, i)
  }

  lemma {:induction false} RunPrefix(how: Insertion, v5: bool, run: seq<Store>, calls: seq<Call>, n: nat)
    requires IsRun(how, v5, run, calls) && n + 1 == |calls|
    ensures IsRun(how, v5, run[..n + 1], calls[..n]) && Does(how, v5, run[n], calls[n], run[n + 1])
    ensures NoneReorders(run, calls) ==>
      NoneReorders(run[..n + 1], calls[..n]) && !Reorders(run[n], calls[n], run[n + 1])
  {
    var before, front := run[..n + 1], calls[..n];
    assert DoesAt(how, v5, run, calls, n);
    forall i | 0 <= i < n ensures DoesAt(how, v5, before, front, i) {
      assert DoesAt(how, v5, run, calls, i);
    }
    if NoneReorders(run, calls) {
      assert !ReordersAt(run, calls, n);
      forall i | 0 <= i < n ensures !ReordersAt(before, front, i) {
        assert !ReordersAt(run, calls, i);
      }
    }
  }

  predicate AllOrderly(how: Insertion, calls: seq<Call>) {
    forall i :: 0 <= i < |calls| ==> Orderly(how, calls[i])
  }

  predicate NoneThrows(calls: seq<Call>) {
    forall i :: 0 <= i < |calls| ==> calls[i].reply != Exception
  }

  lemma {:induction false} CallsPrefix(how: Insertion, calls: seq<Call>, n: nat)
    requires n + 1 == |calls|
    ensures AllOrderly(how, calls) <==> AllOrderly(how, calls[..n]) && Orderly(how, calls[n])
    ensures NoneThrows(calls) <==> NoneThrows(calls[..n]) && calls[n].reply != Exception
  {
    assert calls == calls[..n] + [calls[n]];
  }

  /** Over every orderly run from a steady and sound start, however the disk fails: nothing
      throws, tags stay distinct, and the configuration holds the nodes of the list; in the
      list's order unless a refused removal has changed it. */
  lemma {:induction false} RunKeepsFiles(how: Insertion, v5: bool, run: seq<Store>, calls: seq<Call>)
    requires IsRun(how, v5, run, calls) && Steady(how, run[0]) && Sound(run[0])
    requires AllOrderly(how, calls)
    ensures NoneThrows(calls) && Steady(how, run[|calls|]) && Sound(run[|calls|])
    ensures InOrder(run[0]) && NoneReorders(run, calls) ==> InOrder(run[|calls|])
  {
    if calls != [] {
      var n := |calls| - 1;
      RunPrefix(how, v5, run, calls, n);
      CallsPrefix(how, calls, n);
      RunKeepsFiles(how, v5, run[..n + 1], calls[..n]);
      OneMoreCall(how, v5, run[n], calls[n], run[n + 1]);
    }
  }

  lemma {:induction false} OneMoreCall(how: Insertion, v5: bool, s: Store, c: Call, t: Store)
    requires Does(how, v5, s, c, t) && Steady(how, s) && Sound(s) && Orderly(how, c)
    ensures c.reply != Exception && Steady(how, t) && Sound(t)
    ensures InOrder(s) && !Reorders(s, c, t) ==> InOrder(t)
    ensures t.remarks == if Wrote(c) && c.disk.remarks then RemarksFile(t.nodes) else s.remarks
  {
    CallSteady(how, v5, s, c, t);
    CallSyncs(how, v5, s, c, t);
  }

  /** The last call that wrote the remarks, or -1. */
  function LastNoted(calls: seq<Call>): (k: int)
    ensures -1 <= k < |calls|
  {
    if calls == [] then -1
    else
      var last := calls[|calls| - 1];
      if Wrote(last) && last.disk.remarks then |calls| - 1 else LastNoted(calls[..|calls| - 1])
  }

  /** What call i has done to the remarks file. */
  predicate NotesAt(run: seq<Store>, calls: seq<Call>, i: nat)
    requires i < |calls| && |run| == |calls| + 1
  {
    run[i + 1].remarks == if Wrote(calls[i]) && calls[i].disk.remarks then RemarksFile(run[i + 1].nodes)
                          else run[i].remarks
  }

  lemma {:induction false} RunAt(how: Insertion, v5: bool, run: seq<Store>, calls: seq<Call>, i: nat)
    requires IsRun(how, v5, run, calls) && Steady(how, run[0]) && Sound(run[0])
    requires AllOrderly(how, calls) && i < |calls|
    ensures NotesAt(run, calls, i) && Sound(run[i + 1])
  {
    var front, before := calls[..i], run[..i + 1];
    forall j | 0 <= j < i ensures DoesAt(how, v5, before, front, j) {
      assert DoesAt(how, v5, run, calls, j);
    }
    RunKeepsFiles(how, v5, before, front);
    assert DoesAt(how, v5, run, calls, i);
    OneMoreCall(how, v5, run[i], calls[i], run[i + 1]);
  }

  /** The remarks file is that of the list as it was when the remarks were last written. */
  lemma {:induction false} LastRemarks(run: seq<Store>, calls: seq<Call>)
    requires |run| == |calls| + 1 && forall i :: 0 <= i < |calls| ==> NotesAt(run, calls, i)
    ensures
      var k := LastNoted(calls);
      run[|calls|].remarks == if k < 0 then run[0].remarks else RemarksFile(run[k + 1].nodes)
  {
    if calls != [] {
      var n := |calls| - 1;
      var before, front := run[..n + 1], calls[..n];
      forall i | 0 <= i < n ensures NotesAt(before, front, i) {
        assert NotesAt(run, calls, i);
      }
      LastRemarks(before, front);
      assert NotesAt(run, calls, n);
    }
  }

  lemma {:induction false} RunRemarks(how: Insertion, v5: bool, run: seq<Store>, calls: seq<Call>)
    requires IsRun(how, v5, run, calls) && Steady(how, run[0]) && Sound(run[0])
    requires AllOrderly(how, calls) && LastNoted(calls) >= 0
    ensures
      var noted := run[LastNoted(calls) + 1].nodes;
      Proper(noted) && run[|calls|].remarks == RemarksFile(noted)
  {
    forall i | 0 <= i < |calls| ensures NotesAt(run, calls, i) {
      RunAt(how, v5, run, calls, i);
    }
    LastRemarks(run, calls);
    RunAt(how, v5, run, calls, LastNoted(calls));
  }

  /** After every orderly run in which the remarks were written at least once, loading the files
      gives the list exactly when the configuration has its order, and each node the remark that
      its tag had in the list when they were last written. */
  lemma {:induction false} RunInSync(how: Insertion, v5: bool, run: seq<Store>, calls: seq<Call>)
    requires IsRun(how, v5, run, calls) && Steady(how, run[0]) && Sound(run[0])
    requires AllOrderly(how, calls) && LastNoted(calls) >= 0
    ensures
      var s, noted := run[|calls|], run[LastNoted(calls) + 1].nodes;
      InSync(s) <==>
        InOrder(s) && forall i :: 0 <= i < |s.nodes| ==> s.nodes[i].remark == RemarkIn(noted, s.nodes[i].tag)
  {
    var s, noted := run[|calls|], run[LastNoted(calls) + 1].nodes;
    RunRemarks(how, v5, run, calls);
    SyncWithNoted(s, noted);
  }

  lemma {:induction false} SyncWithNoted(s: Store, noted: seq<Node>)
    requires DistinctTags(noted) && s.remarks == RemarksFile(noted)
    ensures InSync(s) <==>
      InOrder(s) && forall i :: 0 <= i < |s.nodes| ==> s.nodes[i].remark == RemarkIn(noted, s.nodes[i].tag)
  {
    SyncIs(s);
    RemarksExact(s, noted);
  }

  // ----- starting from files ---------------------------------------------------------

  /** What the parser makes of any outbound has no settings that are not in use. */
  lemma {:induction false} ParsedIsUsed(outbound: Json)
    requires ParseOutbound(outbound).Ok? && ParseOutbound(outbound).value.Some?
    ensures var n := ParseOutbound(outbound).value.value; Used(n) == n && n.tag != "" && n.remark == ""
  {
    var server, tag := FirstServer(outbound).value, StringOr(outbound, "tag", "").value;
    ServerIsPlain(server, tag);
    var n := ParseServer(server, tag).value;
    if Contains(outbound, "streamSettings") {
      StreamIsUsed(outbound.fields["streamSettings"], n);
    }
  }

  lemma {:induction false} ServerIsPlain(server: Json, tag: string)
    requires ParseServer(server, tag).Ok?
    ensures Plain(ParseServer(server, tag).value) && ParseServer(server, tag).value.tag == tag
  {
    var address, port := StringOr(server, "address", "").value, ToPort(IntOr(server, "port", 443).value);
    UserKeepsUsed(server, NEW_NODE.(tag := tag, address := address, port := port));
  }

  predicate Plain(n: Node) {
    && n.tls == "none" && n.tcp == TCP0 && n.ws == WS0 && n.h2 == H20 && n.quic == QUIC0 && n.kcp == KCP0
    && n.tlsConfig == TLS0 && n.remark == ""
  }

  lemma UserKeepsUsed(server: Json, n: Node)
    requires ParseUser(server, n).Ok? && Plain(n)
    ensures Plain(ParseUser(server, n).value) && ParseUser(server, n).value.tag == n.tag
  {
  }

  lemma {:induction false} StreamIsUsed(ss: Json, n: Node)
    requires ParseStream(ss, n).Ok? && Plain(n)
    ensures var m := ParseStream(ss, n).value; Used(m) == m && m.tag == n.tag && m.remark == n.remark
  {
    var network, security := StringOr(ss, "network", "tcp").value, StringOr(ss, "security", "none").value;
    var k := n.(network := network, tls := if security == "tls" then "tls" else "none");
    TransportIsUsed(ss, k);
  }

  predicate NoTransport(n: Node) {
    n.tcp == TCP0 && n.ws == WS0 && n.h2 == H20 && n.quic == QUIC0 && n.kcp == KCP0
  }

  lemma {:induction false} TransportIsUsed(ss: Json, n: Node)
    requires ParseTransport(ss, n).Ok? && NoTransport(n)
    requires n.tlsConfig == TLS0 && (n.tls == "tls" || n.tls == "none")
    ensures
      var m := ParseTransport(ss, n).value;
      Used(m) == m && m.(tcp := TCP0, ws := WS0, h2 := H20, quic := QUIC0, kcp := KCP0) == n
  {
    var m := ParseTransport(ss, n).value;
    OneTransport(ss, n);
    assert Used(m).tls == m.tls && Used(m).tlsConfig == m.tlsConfig;
  }

  /** Only the transport's own settings are read. */
  lemma OneTransport(ss: Json, n: Node)
    requires ParseTransport(ss, n).Ok?
    ensures
      var m := ParseTransport(ss, n).value;
      || (m == n.(tcp := m.tcp) && n.network == "tcp")
      || (m == n.(ws := m.ws) && n.network == "ws")
      || (m == n.(h2 := m.h2) && n.network == "h2")
      || (m == n.(quic := m.quic) && n.network == "quic")
      || (m == n.(kcp := m.kcp) && n.network == "kcp")
      || m == n
  {
  }

  lemma {:induction false} ParsedNodesUsed(outbounds: seq<Json>)
    requires ParseNodes(outbounds).Ok?
    ensures
      var nodes := ParseNodes(outbounds).value;
      Tagged(nodes) && forall i :: 0 <= i < |nodes| ==> Used(nodes[i]) == nodes[i] && nodes[i].remark == ""
  {
    if outbounds != [] {
      var last := outbounds[|outbounds| - 1];
      ParsedNodesUsed(outbounds[..|outbounds| - 1]);
      if StringOr(last, "protocol", "") == Ok("vmess") && ParseOutbound(last).value.Some? {
        ParsedIsUsed(last);
      }
    }
  }

  lemma {:induction false} RemarksKeepUsed(nodes: seq<Node>, remarks: Json)
    requires WithRemarks(nodes, remarks).Ok? && Tagged(nodes)
    requires forall i :: 0 <= i < |nodes| ==> Used(nodes[i]) == nodes[i]
    ensures
      var noted := WithRemarks(nodes, remarks).value;
      Tagged(noted) && forall i :: 0 <= i < |noted| ==> Used(noted[i]) == noted[i]
  {
    if nodes != [] {
      RemarksKeepUsed(nodes[..|nodes| - 1], remarks);
      RemarkKeepsUsed(nodes[|nodes| - 1], remarks);
    }
  }

  /** Remarks are all that reading the remarks changes. */
  lemma {:induction false} RemarksKeepRest(nodes: seq<Node>, remarks: Json)
    requires WithRemarks(nodes, remarks).Ok?
    ensures
      var noted := WithRemarks(nodes, remarks).value;
      |noted| == |nodes| && forall i :: 0 <= i < |nodes| ==> noted[i].(remark := nodes[i].remark) == nodes[i]
  {
    if nodes != [] { RemarksKeepRest(nodes[..|nodes| - 1], remarks); }
  }

  lemma RemarkKeepsUsed(n: Node, remarks: Json)
    requires RemarkFor(remarks, n).Ok? && Used(n) == n
    ensures Used(RemarkFor(remarks, n).value) == RemarkFor(remarks, n).value
    ensures RemarkFor(remarks, n).value.tag == n.tag
  {
  }

  /** A manager that has loaded any two files without an exception is in sync with them, so
      runs may start there whenever the tags are distinct and the transports known. */
  lemma {:induction false} LoadedInSync(config: Json, remarks: Json, nodes: seq<Node>, active: string)
    requires !Load(config, remarks, nodes, active).threw
    ensures
      var r := Load(config, remarks, nodes, active);
      var s := Store(r.nodes, r.active, config, remarks);
      && InSync(s) && InOrder(s) && Tagged(s.nodes)
      && (DistinctTags(s.nodes) && KnownNetworks(s.nodes) ==> Sound(s))
  {
    var r := Load(config, remarks, nodes, active);
    if config.Obj? {
      var parsed := ParseNodes(OutboundsOf(config)).value;
      ParsedNodesUsed(OutboundsOf(config));
      RemarksKeepUsed(parsed, remarks);
      assert r.nodes == WithRemarks(parsed, remarks).value;
      assert UsedAll(r.nodes) == r.nodes;
    }
    SyncIs(Store(r.nodes, r.active, config, remarks));
  }
}

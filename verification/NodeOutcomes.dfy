/** What the manager answers to each operation, and what the list and the files hold then. */
module NodeOutcomes {
  import opened Json
  import opened VmNode
  import opened ConfigBuilder
  import opened ConfigLoader
  import opened NodeManager
  import opened NodeSync

  /** An operation that may be done is done with well-formed rules and a good disk, throws with a
      malformed rule, and is refused otherwise; one that may not is refused. Done, it leaves the
      given list and the active tag; when it throws, the list has changed and no file has. */
  ghost predicate Settles(s: Store, may: bool, disk: Disk, nodes: seq<Node>, t: Store, reply: Reply) {
    var sound := forall i :: 0 <= i < |Rules(s)| ==> WellFormed(Rules(s)[i]);
    && (reply == Done <==> may && sound && disk.config)
    && (reply == Exception <==> may && !sound)
    && (reply != Refused ==> t.nodes == nodes && t.active == s.active)
    && (reply == Exception ==> t.config == s.config && t.remarks == s.remarks)
  }

  /** A node is among those read, and the only one of its tag. */
  ghost predicate Finds(read: Result<seq<Node>>, node: Node) {
    && read.Ok? && node in read.value
    && forall i, j :: 0 <= i < j < |read.value| && read.value[i].tag == node.tag ==> read.value[j].tag != node.tag
  }

  /** Reading the configuration finds the node, and with it its remark if that was written too. */
  ghost predicate Loads(t: Store, disk: Disk, node: Node) {
    && Finds(Configured(t), Used(node).(remark := ""))
    && (disk.remarks ==> Finds(NodesIn(t.config, t.remarks), Used(node)))
  }

  ghost predicate Lacks(read: Result<seq<Node>>, tag: string) { read.Ok? && !HasTag(read.value, tag) }

  /** Reading the files finds no node of this tag. */
  ghost predicate Drops(t: Store, disk: Disk, tag: string) {
    Lacks(Configured(t), tag) && (disk.remarks ==> Lacks(NodesIn(t.config, t.remarks), tag))
  }

  predicate Trackable(nodes: seq<Node>) { Proper(nodes) && KnownNetworks(nodes) }

  // ----- reading what was saved ------------------------------------------------------

  /** The files of a saved list. */
  ghost predicate Files(t: Store, disk: Disk) {
    InOrder(t) && (disk.remarks ==> t.remarks == RemarksFile(t.nodes))
  }

  lemma {:induction false} FilesRead(t: Store, disk: Disk)
    requires Trackable(t.nodes) && Files(t, disk)
    ensures Configured(t) == Ok(Bare(t.nodes))
    ensures disk.remarks ==> NodesIn(t.config, t.remarks) == Ok(UsedAll(t.nodes))
  {
    if disk.remarks {
      RemarksRead(t.nodes, t.nodes);
      OwnRemarks(t.nodes);
    }
  }

  lemma {:induction false} FilesLoad(t: Store, disk: Disk, k: nat)
    requires Trackable(t.nodes) && Files(t, disk) && k < |t.nodes|
    ensures Loads(t, disk, t.nodes[k])
  {
    FilesRead(t, disk);
    BareAt(t.nodes);
    assert Bare(t.nodes)[k] == Used(t.nodes[k]).(remark := "");
    assert UsedAll(t.nodes)[k] == Used(t.nodes[k]);
  }

  lemma {:induction false} FilesLack(t: Store, disk: Disk, tag: string)
    requires Trackable(t.nodes) && Files(t, disk) && !HasTag(t.nodes, tag)
    ensures Drops(t, disk, tag)
  {
    FilesRead(t, disk);
    BareAt(t.nodes);
    forall k | 0 <= k < |t.nodes| ensures Bare(t.nodes)[k].tag != tag && UsedAll(t.nodes)[k].tag != tag {
      assert t.nodes[k].tag != tag;
    }
  }

  lemma {:induction false} SaveSettles(how: Insertion, s: Store, nodes: seq<Node>, disk: Disk)
    requires Tagged(nodes) && nodes != []
    ensures var (t, reply) := Saved(how, s.(nodes := nodes), disk); Settles(s, true, disk, nodes, t, reply)
  {
    SaveOutcome(how, s.(nodes := nodes), disk);
    assert nodes[0].tag != "" && Rules(s.(nodes := nodes)) == Rules(s);
  }

  lemma {:induction false} SavedLoads(how: Insertion, s: Store, nodes: seq<Node>, disk: Disk, k: nat)
    requires Trackable(nodes) && Saved(how, s.(nodes := nodes), disk).1 == Done && k < |nodes|
    ensures var t := Saved(how, s.(nodes := nodes), disk).0; t.nodes == nodes && Loads(t, disk, nodes[k])
  {
    DoneSyncs(how, s, nodes, disk);
    FilesLoad(Saved(how, s.(nodes := nodes), disk).0, disk, k);
  }

  lemma {:induction false} SavedLacks(how: Insertion, s: Store, nodes: seq<Node>, disk: Disk, tag: string)
    requires Trackable(nodes) && Saved(how, s.(nodes := nodes), disk).1 == Done && !HasTag(nodes, tag)
    ensures var t := Saved(how, s.(nodes := nodes), disk).0; t.nodes == nodes && Drops(t, disk, tag)
  {
    DoneSyncs(how, s, nodes, disk);
    FilesLack(Saved(how, s.(nodes := nodes), disk).0, disk, tag);
  }

  // ----- the operations --------------------------------------------------------------

  /** A node that is accepted and has a tag of its own is added at the end. */
  lemma {:induction false} AddOutcome(how: Insertion, v5: bool, s: Store, node: Node, p: Patterns, disk: Disk)
    requires Tagged(s.nodes)
    ensures
      var (t, reply) := Added(how, v5, s, node, p, disk);
      Settles(s, Accepted(node, v5, p) && !HasTag(s.nodes, node.tag), disk, s.nodes + [node], t, reply)
  {
    if Accepted(node, v5, p) { SaveSettles(how, s, s.nodes + [node], disk); }
  }

  lemma {:induction false} AddLoads(how: Insertion, v5: bool, s: Store, node: Node, p: Patterns, disk: Disk)
    requires Trackable(s.nodes) && Added(how, v5, s, node, p, disk).1 == Done
    ensures var t := Added(how, v5, s, node, p, disk).0; Trackable(t.nodes) && Loads(t, disk, node)
  {
    AppendedIsProper(s.nodes, node);
    SavedLoads(how, s, s.nodes + [node], disk, |s.nodes|);
  }

  /** A node of this tag, the first one, gives way to what is put in its place. */
  ghost predicate Replaces(before: seq<Node>, tag: string, middle: seq<Node>, after: seq<Node>) {
    exists i :: 0 <= i < |before| && before[i].tag == tag && !HasTag(before[..i], tag)
                && after == before[..i] + middle + before[i + 1..]
  }

  lemma {:induction false} UniqueIs(nodes: seq<Node>, tag: string, exclude: string)
    ensures TagUnique(nodes, tag, exclude) <==> (HasTag(nodes, tag) ==> tag == exclude)
  {
    if TagUnique(nodes, tag, exclude) && HasTag(nodes, tag) {
      var i :| 0 <= i < |nodes| && nodes[i].tag == tag;
      assert nodes[i].tag == exclude;
    }
  }

  lemma {:induction false} FoundIsReplaced(nodes: seq<Node>, i: nat, node: Node)
    requires i < |nodes| && FindTag(nodes, nodes[i].tag) == i
    ensures Replaces(nodes, nodes[i].tag, [node], nodes[i := node])
    ensures Replaces(nodes, nodes[i].tag, [], Without(nodes, i))
  {
    assert nodes[i := node] == nodes[..i] + [node] + nodes[i + 1..];
    assert Without(nodes, i) == nodes[..i] + [] + nodes[i + 1..];
    assert !HasTag(nodes[..i], nodes[i].tag);
  }

  /** An accepted node whose tag no other node has replaces the node of the old tag, in its place. */
  lemma {:induction false} ChangeOutcome(how: Insertion, v5: bool, s: Store, tag: string, node: Node,
                                         p: Patterns, disk: Disk) returns (nodes: seq<Node>)
    requires Tagged(s.nodes)
    ensures
      var (t, reply) := Changed(how, v5, s, tag, node, p, disk);
      var may := Accepted(node, v5, p) && HasTag(s.nodes, tag) && (HasTag(s.nodes, node.tag) ==> node.tag == tag);
      Settles(s, may, disk, nodes, t, reply) && (may ==> Replaces(s.nodes, tag, [node], nodes))
  {
    var i := FindTag(s.nodes, tag);
    NotFound(s.nodes, tag);
    nodes := s.nodes;
    if Accepted(node, v5, p) && i < |s.nodes| {
      nodes := s.nodes[i := node];
      UniqueIs(s.nodes, node.tag, tag);
      FoundIsReplaced(s.nodes, i, node);
      SaveSettles(how, s, nodes, disk);
    }
  }

  lemma {:induction false} ChangeLoads(how: Insertion, v5: bool, s: Store, tag: string, node: Node,
                                       p: Patterns, disk: Disk)
    requires Trackable(s.nodes) && Changed(how, v5, s, tag, node, p, disk).1 == Done
    ensures var t := Changed(how, v5, s, tag, node, p, disk).0; Trackable(t.nodes) && Loads(t, disk, node)
  {
    var i := FindTag(s.nodes, tag);
    ReplacedIsFound(s.nodes, i, node);
    SavedLoads(how, s, s.nodes[i := node], disk, i);
  }

  /** The node of a listed tag goes, unless it is the only node there is. */
  lemma {:induction false} RemoveOutcome(how: Insertion, s: Store, tag: string, disk: Disk) returns (nodes: seq<Node>)
    requires Tagged(s.nodes)
    ensures
      var (t, reply) := Removed(how, s, tag, disk);
      var may := |s.nodes| >= 2 && HasTag(s.nodes, tag);
      Settles(s, may, disk, nodes, t, reply) && (may ==> Replaces(s.nodes, tag, [], nodes))
  {
    var i := FindTag(s.nodes, tag);
    NotFound(s.nodes, tag);
    nodes := s.nodes;
    if |s.nodes| >= 2 && i < |s.nodes| {
      nodes := Without(s.nodes, i);
      FoundIsReplaced(s.nodes, i, s.nodes[i]);
      StillTagged(s.nodes, i);
      SaveSettles(how, s, nodes, disk);
    }
  }

  lemma {:induction false} StillTagged(nodes: seq<Node>, i: nat)
    requires Tagged(nodes) && i < |nodes|
    ensures Tagged(Without(nodes, i))
  {
    var rest := Without(nodes, i);
    forall j | 0 <= j < |rest| ensures rest[j] == nodes[if j < i then j else j + 1] {
    }
  }

  lemma {:induction false} RemoveLoads(how: Insertion, s: Store, tag: string, disk: Disk)
    requires Trackable(s.nodes) && Removed(how, s, tag, disk).1 == Done
    ensures var t := Removed(how, s, tag, disk).0; Trackable(t.nodes) && Drops(t, disk, tag)
  {
    var i := FindTag(s.nodes, tag);
    WithoutOne(s.nodes, i);
    StillKnown(s.nodes, i);
    TagGone(s.nodes, i);
    SavedLacks(how, s, Without(s.nodes, i), disk, tag);
  }

  lemma {:induction false} TagGone(nodes: seq<Node>, i: nat)
    requires Proper(nodes) && i < |nodes|
    ensures !HasTag(Without(nodes, i), nodes[i].tag)
  {
    var rest := Without(nodes, i);
    forall j | 0 <= j < |rest| ensures rest[j] == nodes[if j < i then j else j + 1] {
    }
  }

  /** A decoded node that is accepted under the tag of the least free number is added at the end
      with that tag. */
  lemma {:induction false} ImportOutcome(how: Insertion, v5: bool, s: Store, decoded: Node, n: nat,
                                         p: Patterns, disk: Disk)
    requires Tagged(s.nodes) && LeastFree(s.nodes, n)
    ensures
      var (t, reply) := Imported(how, v5, s, decoded, n, p, disk);
      var node := decoded.(tag := AutoTag(n));
      Settles(s, Accepted(node, v5, p), disk, s.nodes + [node], t, reply)
  {
    var node := decoded.(tag := AutoTag(n));
    if Accepted(node, v5, p) { SaveSettles(how, s, s.nodes + [node], disk); }
  }

  lemma {:induction false} ImportLoads(how: Insertion, v5: bool, s: Store, decoded: Node, n: nat,
                                       p: Patterns, disk: Disk)
    requires Trackable(s.nodes) && LeastFree(s.nodes, n) && Imported(how, v5, s, decoded, n, p, disk).1 == Done
    ensures
      var t := Imported(how, v5, s, decoded, n, p, disk).0;
      Trackable(t.nodes) && Loads(t, disk, decoded.(tag := AutoTag(n)))
  {
    var node := decoded.(tag := AutoTag(n));
    AppendedIsProper(s.nodes, node);
    SavedLoads(how, s, s.nodes + [node], disk, |s.nodes|);
  }
}

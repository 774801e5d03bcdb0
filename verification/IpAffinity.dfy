/** The table of client-address affinities: a recency list of records and an index from
    address to list node. A node's identity, what a list iterator points at, is its number. */
module IpAffinity {
  import opened Wrappers
  import opened Clock

  datatype Node = Node(id: nat, ip: string, tag: string, at: nat)

  datatype Table = Table(lru: seq<Node>, index: map<string, nat>, next: nat)

  datatype Limits = Limits(timeout: int, records: int)

  // ----- what the operations compute -------------------------------------------------

  /** Where the node with this number stands. */
  function Position(lru: seq<Node>, id: nat): (p: nat)
    ensures p <= |lru|
    ensures p < |lru| ==> lru[p].id == id
    ensures forall i :: 0 <= i < p ==> lru[i].id != id
  {
    if lru == [] || lru[0].id == id then 0 else 1 + Position(lru[1..], id)
  }

  /** Every index entry points at a node that is in the list and carries its address; the
      nodes are distinct. */
  ghost predicate Linked(t: Table) {
    Distinct(t.lru, t.next) && Pointing(t)
  }

  ghost predicate Distinct(lru: seq<Node>, next: nat) {
    && (forall i, j :: 0 <= i < j < |lru| ==> lru[i].id != lru[j].id)
    && (forall i :: 0 <= i < |lru| ==> lru[i].id < next)
  }

  ghost predicate Pointing(t: Table) {
    forall ip :: ip in t.index ==> HasNode(t.lru, t.index[ip], ip)
  }

  ghost predicate HasNode(lru: seq<Node>, id: nat, ip: string) {
    exists n :: n in lru && n.id == id && n.ip == ip
  }

  lemma {:induction false} Dereferenced(t: Table, ip: string)
    requires Linked(t) && ip in t.index
    ensures var p := Position(t.lru, t.index[ip]); p < |t.lru| && t.lru[p].ip == ip
  {
    var n :| n in t.lru && n.id == t.index[ip] && n.ip == ip;
  }

  /** The node an index entry points at. */
  function NodeOf(t: Table, ip: string): (n: Node)
    requires Linked(t) && ip in t.index
    ensures n.ip == ip && n.id == t.index[ip] && n in t.lru
  {
    Dereferenced(t, ip);
    t.lru[Position(t.lru, t.index[ip])]
  }

  predicate Expired(l: Limits, n: Node, now: nat) { WholeSeconds(n.at, now) > l.timeout }

  /** A record lives until the second after its timeout begins. */
  lemma {:induction false} ExpiredIs(l: Limits, n: Node, now: nat)
    requires n.at <= now
    ensures Expired(l, n, now) <==> now >= n.at + (l.timeout + 1) * NANOS
  {
    WholeSecondsAre(n.at, now, l.timeout);
  }

  function Lookup(l: Limits, t: Table, ip: string, now: nat): Option<string>
    requires Linked(t)
  {
    if ip !in t.index then None
    else
      var n := NodeOf(t, ip);
      if Expired(l, n, now) then None else Some(n.tag)
  }

  function Dropped(lru: seq<Node>, p: nat): seq<Node>
    requires p < |lru|
  {
    lru[..p] + lru[p + 1..]
  }

  function Evicted(t: Table, room: nat): Table
    decreases |t.lru|
  {
    if |t.lru| <= room then t
    else
      var n := |t.lru| - 1;
      Evicted(t.(lru := t.lru[..n], index := t.index - {t.lru[n].ip}), room)
  }

  /** Popping the back of an empty list is undefined, so the limit must be positive. */
  function Updated(l: Limits, t: Table, ip: string, tag: string, now: nat): Table
    requires Linked(t) && l.records >= 1
  {
    if ip in t.index then
      Dereferenced(t, ip);
      var p := Position(t.lru, t.index[ip]);
      t.(lru := [t.lru[p].(tag := tag, at := now)] + Dropped(t.lru, p))
    else
      Pushed(Evicted(t, l.records - 1), Node(t.next, ip, tag, now))
  }

  /** A new node in front, and its key. */
  function Pushed(t: Table, n: Node): Table {
    Table([n] + t.lru, t.index[n.ip := n.id], n.id + 1)
  }

  function Invalidated(t: Table, ip: string): Table
    requires Linked(t)
  {
    if ip !in t.index then t
    else
      Dereferenced(t, ip);
      t.(lru := Dropped(t.lru, Position(t.lru, t.index[ip])), index := t.index - {ip})
  }

  function Others(lru: seq<Node>, tag: string): seq<Node> {
    if lru == [] then []
    else
      var rest, n := Others(lru[..|lru| - 1], tag), lru[|lru| - 1];
      if n.tag == tag then rest else rest + [n]
  }

  function Addresses(lru: seq<Node>, tag: string): set<string> {
    if lru == [] then {}
    else
      var rest, n := Addresses(lru[..|lru| - 1], tag), lru[|lru| - 1];
      if n.tag == tag then rest + {n.ip} else rest
  }

  function NodeInvalidated(t: Table, tag: string): Table {
    t.(lru := Others(t.lru, tag), index := t.index - Addresses(t.lru, tag))
  }

  /** The addresses of the expired nodes at the back of the list. */
  function Tail(l: Limits, lru: seq<Node>, now: nat): set<string> {
    if lru == [] || !Expired(l, lru[|lru| - 1], now) then {}
    else {lru[|lru| - 1].ip} + Tail(l, lru[..|lru| - 1], now)
  }

  /** The list itself is left as it is. */
  function CleanedUp(l: Limits, t: Table, now: nat): Table {
    t.(index := t.index - Tail(l, t.lru, now))
  }

  // ----- the table -------------------------------------------------------------------

  class IpAffinityTable {
    const limits: Limits
    var lru: seq<Node>
    var index: map<string, nat>
    var next: nat

    ghost function Now(): Table
      reads this
    {
      Table(lru, index, next)
    }

    constructor (limits: Limits)
      ensures Now() == Table([], map[], 0) && this.limits == limits
    {
      this.limits := limits;
      lru, index, next := [], map[], 0;
    }

    method LookUp(ip: string, now: nat) returns (tag: Option<string>)
      requires Linked(Now())
      ensures tag == Lookup(limits, Now(), ip, now)
    {
      if ip !in index { return None; }
      Dereferenced(Now(), ip);
      var n := lru[Position(lru, index[ip])];
      if WholeSeconds(n.at, now) > limits.timeout { return None; }
      return Some(n.tag);
    }

    method Update(ip: string, tag: string, now: nat)
      requires Linked(Now()) && limits.records >= 1
      modifies this
      ensures Now() == Updated(limits, old(Now()), ip, tag, now)
    {
      if ip in index {
        Dereferenced(Now(), ip);
        var p := Position(lru, index[ip]);
        lru := lru[p := lru[p].(tag := tag)];
        lru := lru[p := lru[p].(at := now)];
        lru := [lru[p]] + (lru[..p] + lru[p + 1..]);
        return;
      }
      ghost var room := limits.records - 1;
      ghost var goal := Evicted(Now(), room);
      while |lru| >= limits.records
        invariant Evicted(Table(lru, index, next), room) == goal
        invariant next == old(next)
        decreases |lru|
      {
        index := index - {lru[|lru| - 1].ip};
        lru := lru[..|lru| - 1];
      }
      lru := [Node(next, ip, tag, now)] + lru;
      index := index[ip := next];
      next := next + 1;
    }

    method Invalidate(ip: string)
      requires Linked(Now())
      modifies this
      ensures Now() == Invalidated(old(Now()), ip)
    {
      if ip in index {
        Dereferenced(Now(), ip);
        var p := Position(lru, index[ip]);
        lru := lru[..p] + lru[p + 1..];
        index := index - {ip};
      }
    }

    method InvalidateNode(tag: string)
      modifies this
      ensures Now() == NodeInvalidated(old(Now()), tag)
    {
      var i := 0;
      ghost var all, seen := lru, 0;
      while i < |lru|
        invariant Scanned(all, seen, lru, i, tag) && next == old(next)
        invariant index == old(index) - Addresses(all[..seen], tag)
        decreases |lru| - i
      {
        ScanNext(all, seen, lru, i, tag);
        if lru[i].tag == tag {
          index := index - {lru[i].ip};
          lru := lru[..i] + lru[i + 1..];
        } else {
          i := i + 1;
        }
        seen := seen + 1;
      }
      assert all[..seen] == all && lru[..i] == lru;
    }

    method CleanupExpired(now: nat)
      modifies this
      ensures Now() == CleanedUp(limits, old(Now()), now)
    {
      var i := |lru|;
      ghost var gone: set<string> := {};
      assert lru[..|lru|] == lru;
      while i > 0 && WholeSeconds(lru[i - 1].at, now) > limits.timeout
        invariant 0 <= i <= |lru| && lru == old(lru) && next == old(next)
        invariant index == old(index) - gone
        invariant Tail(limits, lru, now) == gone + Tail(limits, lru[..i], now)
      {
        assert lru[..i][..i - 1] == lru[..i - 1];
        index := index - {lru[i - 1].ip};
        gone := gone + {lru[i - 1].ip};
        i := i - 1;
      }
    }

    method Clear()
      modifies this
      ensures Now() == Table([], map[], old(next))
    {
      index := map[];
      lru := [];
    }
  }

  /** Of `all`, the first `seen` have been looked at; those kept are the first i of the list. */
  ghost predicate Scanned(all: seq<Node>, seen: nat, lru: seq<Node>, i: nat, tag: string) {
    i <= |lru| && seen <= |all| && lru[i..] == all[seen..] && lru[..i] == Others(all[..seen], tag)
  }

  lemma {:induction false} ScanNext(all: seq<Node>, seen: nat, lru: seq<Node>, i: nat, tag: string)
    requires Scanned(all, seen, lru, i, tag) && i < |lru|
    ensures seen < |all| && lru[i] == all[seen]
    ensures Addresses(all[..seen + 1], tag)
         == Addresses(all[..seen], tag) + if lru[i].tag == tag then {lru[i].ip} else {}
    ensures if lru[i].tag == tag then Scanned(all, seen + 1, lru[..i] + lru[i + 1..], i, tag)
            else Scanned(all, seen + 1, lru, i + 1, tag)
  {
    assert |lru[i..]| == |all[seen..]| && lru[i] == lru[i..][0] == all[seen];
    assert all[..seen + 1][..seen] == all[..seen];
    assert lru[i + 1..] == lru[i..][1..] == all[seen + 1..];
    assert lru[..i + 1] == lru[..i] + [lru[i]];
    assert (lru[..i] + lru[i + 1..])[..i] == lru[..i] && (lru[..i] + lru[i + 1..])[i..] == lru[i + 1..];
  }

  // ----- both strengths of agreement -------------------------------------------------

  /** Front to back the records get older, and none is from after now. */
  ghost predicate Aged(lru: seq<Node>, now: nat) {
    && (forall i :: 0 <= i < |lru| ==> lru[i].at <= now)
    && (forall i, j :: 0 <= i < j < |lru| ==> lru[i].at >= lru[j].at)
  }

  /** No address has two nodes, and every node is indexed: with Linked, a bijection. */
  ghost predicate Bijective(t: Table) {
    && (forall i, j :: 0 <= i < j < |t.lru| ==> t.lru[i].ip != t.lru[j].ip)
    && (forall i :: 0 <= i < |t.lru| ==> t.lru[i].ip in t.index)
  }

  datatype Event =
    | Update(ip: string, tag: string)
    | Invalidate(ip: string)
    | InvalidateNode(tag: string)
    | Cleanup
    | Clear

  function Step(l: Limits, t: Table, e: Event, now: nat): Table
    requires Linked(t) && l.records >= 1
  {
    match e
    case Update(ip, tag) => Updated(l, t, ip, tag, now)
    case Invalidate(ip) => Invalidated(t, ip)
    case InvalidateNode(tag) => NodeInvalidated(t, tag)
    case Cleanup => CleanedUp(l, t, now)
    case Clear => Table([], map[], t.next)
  }

  lemma {:induction false} OthersMembers(lru: seq<Node>, tag: string)
    ensures |Others(lru, tag)| <= |lru|
    ensures forall ip :: ip in Addresses(lru, tag) <==> exists n :: n in lru && n.tag == tag && n.ip == ip
    ensures forall n :: n in Others(lru, tag) <==> n in lru && n.tag != tag
  {
    if lru != [] {
      OthersMembers(lru[..|lru| - 1], tag);
      assert lru == lru[..|lru| - 1] + [lru[|lru| - 1]];
    }
  }

  lemma {:induction false} OthersSound(lru: seq<Node>, tag: string, next: nat, now: nat)
    requires Distinct(lru, next) && Aged(lru, now)
    ensures Distinct(Others(lru, tag), next) && Aged(Others(lru, tag), now)
  {
    if lru != [] {
      var front, n := lru[..|lru| - 1], lru[|lru| - 1];
      OthersSound(front, tag, next, now);
      OthersMembers(front, tag);
      if n.tag != tag {
        OlderNode(Others(front, tag), n, next, now);
      }
    }
  }

  lemma {:induction false} OlderNode(lru: seq<Node>, n: Node, next: nat, now: nat)
    requires Distinct(lru, next) && Aged(lru, now) && n.id < next && n.at <= now
    requires forall m :: m in lru ==> m.id != n.id && m.at >= n.at
    ensures Distinct(lru + [n], next) && Aged(lru + [n], now)
  {
    forall i | 0 <= i < |lru| ensures lru[i].id != n.id && lru[i].at >= n.at {
      assert lru[i] in lru;
    }
  }

  lemma DroppedAt(lru: seq<Node>, p: nat)
    requires p < |lru|
    ensures |Dropped(lru, p)| == |lru| - 1
    ensures forall i :: 0 <= i < |lru| - 1 ==> Dropped(lru, p)[i] == lru[if i < p then i else i + 1]
  {
  }

  lemma {:induction false} DroppedSound(lru: seq<Node>, p: nat, next: nat, now: nat)
    requires p < |lru| && Distinct(lru, next) && Aged(lru, now)
    ensures Distinct(Dropped(lru, p), next) && Aged(Dropped(lru, p), now)
  {
    DroppedAt(lru, p);
  }

  lemma {:induction false} DroppedMembers(lru: seq<Node>, p: nat, next: nat)
    requires p < |lru| && Distinct(lru, next)
    ensures forall n :: n in Dropped(lru, p) <==> n in lru && n.id != lru[p].id
  {
    DroppedAt(lru, p);
    var d := Dropped(lru, p);
    forall n | n in lru && n.id != lru[p].id ensures n in d {
      var i :| 0 <= i < |lru| && lru[i] == n;
      assert n == d[if i < p then i else i - 1];
    }
    forall n | n in d ensures n in lru && n.id != lru[p].id {
      var i :| 0 <= i < |d| && d[i] == n;
      assert n == lru[if i < p then i else i + 1];
    }
  }

  function Room(t: Table, room: nat): (k: nat)
    ensures k <= |t.lru|
  {
    if |t.lru| <= room then |t.lru| else room
  }

  /** Eviction keeps the front of the list, and the keys none of the evicted nodes carries. */
  lemma {:induction false} EvictedIs(t: Table, room: nat)
    ensures Evicted(t, room).lru == t.lru[..Room(t, room)] && Evicted(t, room).next == t.next
    ensures forall ip :: ip in Evicted(t, room).index <==>
      ip in t.index && forall n :: n in t.lru[Room(t, room)..] ==> n.ip != ip
    ensures forall ip :: ip in Evicted(t, room).index ==> Evicted(t, room).index[ip] == t.index[ip]
    decreases |t.lru|
  {
    if |t.lru| > room {
      var n := |t.lru| - 1;
      EvictedIs(t.(lru := t.lru[..n], index := t.index - {t.lru[n].ip}), room);
      assert t.lru[room..] == t.lru[..n][room..] + [t.lru[n]];
    } else {
      assert t.lru[..|t.lru|] == t.lru;
    }
  }

  /** What the insertion of a new node leaves: it goes in front of the first k nodes, and the keys
      of the others, and of nodes with their addresses, are gone. */
  ghost predicate IsInserted(t: Table, k: nat, n: Node, s: Table)
    requires k <= |t.lru|
  {
    && s.lru == [n] + t.lru[..k] && n.ip in s.index && s.index[n.ip] == n.id
    && (forall ip :: ip != n.ip ==>
          (ip in s.index <==> ip in t.index && forall m :: m in t.lru[k..] ==> m.ip != ip))
    && (forall ip :: ip != n.ip && ip in s.index ==> s.index[ip] == t.index[ip])
  }

  lemma {:induction false} InsertedIs(l: Limits, t: Table, ip: string, tag: string, now: nat)
    requires Linked(t) && l.records >= 1 && ip !in t.index
    ensures IsInserted(t, Room(t, l.records - 1), Node(t.next, ip, tag, now), Updated(l, t, ip, tag, now))
  {
    var k, e, n := Room(t, l.records - 1), Evicted(t, l.records - 1), Node(t.next, ip, tag, now);
    assert Updated(l, t, ip, tag, now) == Pushed(e, n);
    CutOff(t, l.records - 1);
    PushedIs(t, k, e, n);
  }

  /** The list cut off behind k nodes, without the keys of the others' addresses. */
  ghost predicate IsCut(t: Table, k: nat, e: Table)
    requires k <= |t.lru|
  {
    && e.lru == t.lru[..k]
    && (forall ip :: ip in e.index <==> ip in t.index && forall m :: m in t.lru[k..] ==> m.ip != ip)
    && (forall ip :: ip in e.index ==> e.index[ip] == t.index[ip])
  }

  lemma {:induction false} CutOff(t: Table, room: nat)
    ensures IsCut(t, Room(t, room), Evicted(t, room))
  {
    EvictedIs(t, room);
  }

  lemma PushedIs(t: Table, k: nat, e: Table, n: Node)
    requires k <= |t.lru| && IsCut(t, k, e)
    ensures IsInserted(t, k, n, Pushed(e, n))
  {
  }

  lemma {:induction false} EvictedLinked(t: Table, room: nat)
    requires Linked(t)
    ensures Linked(Evicted(t, room))
  {
    EvictedIs(t, room);
    forall ip | ip in Evicted(t, room).index
      ensures HasNode(Evicted(t, room).lru, t.index[ip], ip)
    {
      FrontHasNode(t.lru, Room(t, room), NodeOf(t, ip));
    }
  }

  lemma {:induction false} FrontHasNode(lru: seq<Node>, k: nat, n: Node)
    requires k <= |lru| && n in lru && forall m :: m in lru[k..] ==> m.ip != n.ip
    ensures HasNode(lru[..k], n.id, n.ip)
  {
    assert lru == lru[..k] + lru[k..];
    assert n in lru[..k];
  }

  /** Index entries point into the list, which is sound and within the limit. */
  ghost predicate Kept(l: Limits, t: Table, now: nat) {
    Linked(t) && Aged(t.lru, now) && |t.lru| <= l.records
  }

  /** Whatever the operations, cleanup included: every index entry points at a live node with
      that address, the list fits the limit, and it is sorted by age. */
  lemma {:induction false} StepLinked(l: Limits, t: Table, e: Event, before: nat, now: nat)
    requires Kept(l, t, before) && before <= now && l.records >= 1
    ensures Kept(l, Step(l, t, e, now), now)
  {
    match e
    case Update(ip, tag) =>
      if ip in t.index { TouchLinked(l, t, ip, tag, before, now); }
      else { InsertLinked(l, t, ip, tag, before, now); }
    case Invalidate(ip) => InvalidateLinked(l, t, ip, before);
    case InvalidateNode(tag) => NodeInvalidateLinked(l, t, tag, before);
    case Cleanup => CleanupLinked(l, t, now);
    case Clear =>
  }

  lemma CleanupLinked(l: Limits, t: Table, now: nat)
    requires Linked(t)
    ensures Linked(CleanedUp(l, t, now))
  {
  }

  lemma {:induction false} InvalidateLinked(l: Limits, t: Table, ip: string, now: nat)
    requires Kept(l, t, now)
    ensures Kept(l, Invalidated(t, ip), now)
  {
    if ip in t.index {
      Dereferenced(t, ip);
      DroppedSound(t.lru, Position(t.lru, t.index[ip]), t.next, now);
      DroppedIndex(t, ip);
    }
  }

  lemma {:induction false} NodeInvalidateLinked(l: Limits, t: Table, tag: string, now: nat)
    requires Kept(l, t, now)
    ensures Kept(l, NodeInvalidated(t, tag), now)
  {
    OthersSound(t.lru, tag, t.next, now);
    OthersMembers(t.lru, tag);
    var s := NodeInvalidated(t, tag);
    forall k | k in s.index ensures HasNode(s.lru, s.index[k], k) {
      assert NodeOf(t, k) in s.lru;
    }
  }

  /** No other entry points at the node of ip. */
  lemma {:induction false} DroppedIndex(t: Table, ip: string)
    requires Linked(t) && ip in t.index
    requires Position(t.lru, t.index[ip]) < |t.lru|
    ensures forall k :: k in t.index && k != ip ==>
      HasNode(Dropped(t.lru, Position(t.lru, t.index[ip])), t.index[k], k)
  {
    var p := Position(t.lru, t.index[ip]);
    DroppedMembers(t.lru, p, t.next);
    forall k | k in t.index && k != ip ensures HasNode(Dropped(t.lru, p), t.index[k], k) {
      var m, n := NodeOf(t, k), NodeOf(t, ip);
      assert m.id != n.id;
    }
  }

  lemma {:induction false} PushedNode(lru: seq<Node>, n: Node, next: nat, before: nat, now: nat)
    requires Distinct(lru, next) && Aged(lru, before) && before <= now
    requires n.at == now && n.id < next && forall i :: 0 <= i < |lru| ==> lru[i].id != n.id
    ensures Distinct([n] + lru, next) && Aged([n] + lru, now)
    ensures forall id, ip :: HasNode(lru, id, ip) ==> HasNode([n] + lru, id, ip)
    ensures HasNode([n] + lru, n.id, n.ip)
  {
    forall id, ip | HasNode(lru, id, ip) ensures HasNode([n] + lru, id, ip) {
      var m :| m in lru && m.id == id && m.ip == ip;
      assert m in [n] + lru;
    }
    assert n in [n] + lru;
  }

  lemma {:induction false} TouchLinked(l: Limits, t: Table, ip: string, tag: string, before: nat, now: nat)
    requires Kept(l, t, before) && before <= now && l.records >= 1 && ip in t.index
    ensures Kept(l, Updated(l, t, ip, tag, now), now)
  {
    Dereferenced(t, ip);
    var p := Position(t.lru, t.index[ip]);
    var rest := Dropped(t.lru, p);
    DroppedAt(t.lru, p);
    DroppedSound(t.lru, p, t.next, before);
    DroppedIndex(t, ip);
    PushedNode(rest, t.lru[p].(tag := tag, at := now), t.next, before, now);
  }

  lemma {:induction false} InsertLinked(l: Limits, t: Table, ip: string, tag: string, before: nat, now: nat)
    requires Kept(l, t, before) && before <= now && l.records >= 1 && ip !in t.index
    ensures Kept(l, Updated(l, t, ip, tag, now), now)
  {
    var e, n := Evicted(t, l.records - 1), Node(t.next, ip, tag, now);
    EvictedAged(t, l.records - 1, before);
    EvictedLinked(t, l.records - 1);
    PushedTable(e, n, before, now);
    assert Updated(l, t, ip, tag, now) == Pushed(e, n);
  }

  lemma {:induction false} EvictedAged(t: Table, room: nat, before: nat)
    requires Aged(t.lru, before)
    ensures Aged(Evicted(t, room).lru, before) && |Evicted(t, room).lru| <= room && Evicted(t, room).next == t.next
  {
    EvictedIs(t, room);
  }

  lemma {:induction false} PushedTable(t: Table, n: Node, before: nat, now: nat)
    requires Linked(t) && Aged(t.lru, before) && n.id == t.next && n.at == now && before <= now
    ensures
      var s := Table([n] + t.lru, t.index[n.ip := n.id], t.next + 1);
      Linked(s) && Aged(s.lru, now)
  {
    PushedNode(t.lru, n, t.next + 1, before, now);
  }

  /** Everything but cleanup keeps the bijection. */
  lemma {:induction false} StepBijective(l: Limits, t: Table, e: Event, now: nat)
    requires Linked(t) && Bijective(t) && l.records >= 1 && !e.Cleanup?
    ensures Bijective(Step(l, t, e, now))
  {
    match e
    case Update(ip, tag) =>
      if ip in t.index { TouchBijective(l, t, ip, tag, now); }
      else { InsertBijective(t, l.records - 1); }
    case Invalidate(ip) => InvalidateBijective(t, ip);
    case InvalidateNode(tag) => OthersBijective(t, tag);
    case Clear =>
  }

  lemma {:induction false} TouchBijective(l: Limits, t: Table, ip: string, tag: string, now: nat)
    requires Linked(t) && Bijective(t) && l.records >= 1 && ip in t.index
    ensures Bijective(Updated(l, t, ip, tag, now))
  {
    Dereferenced(t, ip);
    var p := Position(t.lru, t.index[ip]);
    TouchedAddresses(t.lru, p, t.lru[p].(tag := tag, at := now));
  }

  lemma {:induction false} TouchedAddresses(lru: seq<Node>, p: nat, n: Node)
    requires p < |lru| && n.ip == lru[p].ip
    requires forall i, j :: 0 <= i < j < |lru| ==> lru[i].ip != lru[j].ip
    ensures
      var moved := [n] + Dropped(lru, p);
      && (forall i, j :: 0 <= i < j < |moved| ==> moved[i].ip != moved[j].ip)
      && (forall i :: 0 <= i < |moved| ==> exists j :: 0 <= j < |lru| && lru[j].ip == moved[i].ip)
  {
    DroppedAt(lru, p);
  }

  lemma {:induction false} InvalidateBijective(t: Table, ip: string)
    requires Linked(t) && Bijective(t)
    ensures Bijective(Invalidated(t, ip))
  {
    if ip in t.index {
      Dereferenced(t, ip);
      DroppedAt(t.lru, Position(t.lru, t.index[ip]));
    }
  }

  lemma {:induction false} InsertBijective(t: Table, room: nat)
    requires Bijective(t)
    ensures Bijective(Evicted(t, room))
    ensures forall i :: 0 <= i < |Evicted(t, room).lru| ==> Evicted(t, room).lru[i].ip in t.index
  {
    EvictedBijective(t, room);
    EvictedIs(t, room);
  }

  lemma {:induction false} EvictedBijective(t: Table, room: nat)
    requires Bijective(t)
    ensures Bijective(Evicted(t, room))
    decreases |t.lru|
  {
    if |t.lru| > room {
      var n := |t.lru| - 1;
      EvictedBijective(t.(lru := t.lru[..n], index := t.index - {t.lru[n].ip}), room);
    }
  }

  lemma {:induction false} OthersDistinct(lru: seq<Node>, tag: string)
    requires forall i, j :: 0 <= i < j < |lru| ==> lru[i].ip != lru[j].ip
    ensures forall i, j :: 0 <= i < j < |Others(lru, tag)| ==> Others(lru, tag)[i].ip != Others(lru, tag)[j].ip
  {
    if lru != [] {
      var front, n := lru[..|lru| - 1], lru[|lru| - 1];
      OthersDistinct(front, tag);
      OthersMembers(front, tag);
      var rest := Others(front, tag);
      forall i | 0 <= i < |rest| ensures rest[i].ip != n.ip {
        assert rest[i] in rest;
      }
    }
  }

  lemma {:induction false} OthersBijective(t: Table, tag: string)
    requires Bijective(t)
    ensures Bijective(NodeInvalidated(t, tag))
  {
    var o := Others(t.lru, tag);
    OthersMembers(t.lru, tag);
    OthersDistinct(t.lru, tag);
    forall i | 0 <= i < |o| ensures o[i].ip in t.index && o[i].ip !in Addresses(t.lru, tag) {
      assert o[i] in o && o[i] in t.lru;
    }
  }

  // ----- runs ------------------------------------------------------------------------

  predicate Monotone(events: seq<(Event, nat)>) {
    forall i, j :: 0 <= i < j < |events| ==> events[i].1 <= events[j].1
  }

  function LastTime(events: seq<(Event, nat)>): nat {
    if events == [] then 0 else events[|events| - 1].1
  }

  /** The table after a run, which is always well linked. */
  ghost function Run(l: Limits, events: seq<(Event, nat)>): (t: Table)
    requires l.records >= 1 && Monotone(events)
    ensures Kept(l, t, LastTime(events))
  {
    if events == [] then Table([], map[], 0)
    else
      var front, e := events[..|events| - 1], events[|events| - 1];
      StepLinked(l, Run(l, front), e.0, LastTime(front), e.1);
      Step(l, Run(l, front), e.0, e.1)
  }

  predicate NoCleanup(events: seq<(Event, nat)>) {
    forall i :: 0 <= i < |events| ==> !events[i].0.Cleanup?
  }

  /** Without cleanups, index and list are in bijection throughout. */
  lemma {:induction false} RunBijective(l: Limits, events: seq<(Event, nat)>)
    requires l.records >= 1 && Monotone(events) && NoCleanup(events)
    ensures Bijective(Run(l, events))
  {
    if events != [] {
      var front, e := events[..|events| - 1], events[|events| - 1];
      RunBijective(l, front);
      StepBijective(l, Run(l, front), e.0, e.1);
    }
  }

  lemma {:induction false} RunPush(l: Limits, events: seq<(Event, nat)>, e: Event, now: nat)
    requires l.records >= 1 && Monotone(events) && LastTime(events) <= now
    ensures Monotone(events + [(e, now)]) && LastTime(events + [(e, now)]) == now
    ensures Run(l, events + [(e, now)]) == Step(l, Run(l, events), e, now)
  {
    assert (events + [(e, now)])[..|events|] == events;
  }

  // ----- cleanup ---------------------------------------------------------------------

  lemma OlderExpiresFirst(l: Limits, older: Node, newer: Node, now: nat)
    requires older.at <= newer.at <= now
    ensures Expired(l, newer, now) ==> Expired(l, older, now)
  {
  }

  /** Stopping at the first node from the back that has not expired misses none. */
  lemma {:induction false} TailIsExpired(l: Limits, lru: seq<Node>, now: nat)
    requires Aged(lru, now)
    ensures Tail(l, lru, now) == set n | n in lru && Expired(l, n, now) :: n.ip
  {
    if lru != [] {
      var front, last := lru[..|lru| - 1], lru[|lru| - 1];
      TailIsExpired(l, front, now);
      assert lru == front + [last];
      forall n | n in lru ensures Expired(l, n, now) ==> Expired(l, last, now) {
        OlderExpiresFirst(l, last, n, now);
      }
    }
  }

  /** Cleanup drops exactly the addresses with an expired node, so no expired key is left. */
  lemma {:induction false} CleanupExact(l: Limits, t: Table, now: nat, ip: string)
    requires Linked(t) && Aged(t.lru, now)
    ensures Linked(CleanedUp(l, t, now))
    ensures ip in CleanedUp(l, t, now).index
       <==> ip in t.index && forall n :: n in t.lru && n.ip == ip ==> !Expired(l, n, now)
    ensures ip in CleanedUp(l, t, now).index ==> !Expired(l, NodeOf(t, ip), now)
  {
    TailIsExpired(l, t.lru, now);
  }

  /** An address whose indexed node is fresh, but which has an expired node further back. */
  ghost predicate StaleTwin(l: Limits, t: Table, now: nat, ip: string)
    requires Linked(t)
  {
    ip in t.index && !Expired(l, NodeOf(t, ip), now)
    && exists n :: n in t.lru && n.ip == ip && Expired(l, n, now)
  }

  /** Cleanup changes the answer for an address at once exactly when it has a stale twin, and then
      it loses a fresh affinity; otherwise no lookup notices it until the table changes again. */
  lemma {:induction false} CleanupUnnoticed(l: Limits, t: Table, now: nat, ip: string, later: nat)
    requires Linked(t) && Aged(t.lru, now) && now <= later
    ensures Linked(CleanedUp(l, t, now))
    ensures Lookup(l, CleanedUp(l, t, now), ip, now) == Lookup(l, t, ip, now) <==> !StaleTwin(l, t, now, ip)
    ensures !StaleTwin(l, t, now, ip) ==>
      Lookup(l, CleanedUp(l, t, now), ip, later) == Lookup(l, t, ip, later)
  {
    CleanupExact(l, t, now, ip);
    if ip in t.index {
      var n := NodeOf(t, ip);
      assert n in t.lru;
      if Expired(l, n, now) { StaysExpired(l, n, now, later); }
    }
  }

  lemma StaysExpired(l: Limits, n: Node, now: nat, later: nat)
    requires n.at <= now <= later && Expired(l, n, now)
    ensures Expired(l, n, later)
  {
  }

  /** A bijective table has no stale twins. */
  lemma {:induction false} BijectiveHasNoTwins(l: Limits, t: Table, now: nat, ip: string)
    requires Linked(t) && Bijective(t)
    ensures !StaleTwin(l, t, now, ip)
  {
    if ip in t.index {
      var m := NodeOf(t, ip);
      forall n | n in t.lru && n.ip == ip ensures n == m {
      }
    }
  }

  /** An update is what the table tells of its address afterwards. */
  lemma {:induction false} UpdateTells(l: Limits, t: Table, ip: string, tag: string, now: nat)
    requires Linked(t) && l.records >= 1 && Linked(Updated(l, t, ip, tag, now))
    ensures
      var s := Updated(l, t, ip, tag, now);
      && ip in s.index && s.lru != [] && s.lru[0] == NodeOf(s, ip)
      && NodeOf(s, ip).tag == tag && NodeOf(s, ip).at == now
  {
    var s := Updated(l, t, ip, tag, now);
    if ip in t.index { Dereferenced(t, ip); }
    assert s.lru[0].id == s.index[ip];
    assert Position(s.lru, s.index[ip]) == 0;
  }
}

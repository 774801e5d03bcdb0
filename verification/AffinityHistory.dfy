/** The affinity table against the history of its operations: what a lookup can answer at all,
    when an address loses its key, and, without cleanups, the answer as a function of the
    history alone. */
module AffinityHistory {
  import opened Wrappers
  import opened Clock
  import opened IpAffinity

  // ----- what the history says of an address -----------------------------------------

  /** The last update of ip if nothing has invalidated it since, by address, by its node's tag
      or with the whole table; else -1. */
  function Current(events: seq<(Event, nat)>, ip: string): (n: int)
    ensures -1 <= n < |events|
    ensures n >= 0 ==> events[n].0.Update? && events[n].0.ip == ip
  {
    if events == [] then -1
    else
      var front, last := events[..|events| - 1], events[|events| - 1].0;
      match last
      case Update(a, _) => if a == ip then |front| else Current(front, ip)
      case Invalidate(a) => if a == ip then -1 else Current(front, ip)
      case InvalidateNode(tag) =>
        var n := Current(front, ip);
        if n >= 0 && front[n].0.tag == tag then -1 else n
      case Cleanup => Current(front, ip)
      case Clear => -1
  }

  /** The key of ip is there with what the history says. */
  ghost predicate Told(events: seq<(Event, nat)>, t: Table, ip: string)
    requires Linked(t) && ip in t.index
  {
    var n := Current(events, ip);
    n >= 0 && NodeOf(t, ip).tag == events[n].0.tag && NodeOf(t, ip).at == events[n].1
  }

  // ----- what becomes of a key -------------------------------------------------------

  /** Whether an operation takes a node: pushes it out, erases it, or finds it expired. */
  ghost predicate Takes(l: Limits, t: Table, e: Event, now: nat, n: Node)
    requires l.records >= 1
  {
    match e
    case Update(a, _) => a !in t.index && n in t.lru[Room(t, l.records - 1)..]
    case Invalidate(a) => a in t.index && t.index[a] == n.id
    case InvalidateNode(tag) => n.tag == tag
    case Cleanup => Expired(l, n, now)
    case Clear => true
  }

  /** Whether it takes any node of ip, the indexed one or another one. */
  ghost predicate Taken(l: Limits, t: Table, e: Event, now: nat, ip: string)
    requires l.records >= 1
  {
    exists n :: n in t.lru && n.ip == ip && Takes(l, t, e, now, n)
  }

  lemma {:induction false} SameNode(t: Table, ip: string, n: Node)
    requires Linked(t) && ip in t.index && n in t.lru && n.id == t.index[ip]
    ensures NodeOf(t, ip) == n
  {
    var m := NodeOf(t, ip);
    var i :| 0 <= i < |t.lru| && t.lru[i] == n;
    var j :| 0 <= j < |t.lru| && t.lru[j] == m;
  }

  lemma {:induction false} KeptNode(t: Table, s: Table, ip: string)
    requires Linked(t) && Linked(s) && ip in t.index && ip in s.index
    requires s.index[ip] == t.index[ip] && NodeOf(t, ip) in s.lru
    ensures NodeOf(s, ip) == NodeOf(t, ip)
  {
    SameNode(s, ip, NodeOf(t, ip));
  }

  /** Two addresses do not share a node. */
  lemma {:induction false} OwnNodes(t: Table, a: string, b: string)
    requires Linked(t) && a in t.index && b in t.index && a != b
    ensures t.index[a] != t.index[b]
  {
    var m, n := NodeOf(t, a), NodeOf(t, b);
    var i :| 0 <= i < |t.lru| && t.lru[i] == m;
    var j :| 0 <= j < |t.lru| && t.lru[j] == n;
  }

  lemma {:induction false} TouchFate(l: Limits, t: Table, a: string, tag: string, now: nat, ip: string)
    requires Linked(t) && l.records >= 1 && a in t.index && ip != a && Linked(Updated(l, t, a, tag, now))
    ensures
      var s := Updated(l, t, a, tag, now);
      (ip in s.index <==> ip in t.index) && (ip in s.index ==> NodeOf(s, ip) == NodeOf(t, ip))
  {
    Dereferenced(t, a);
    var p := Position(t.lru, t.index[a]);
    DroppedMembers(t.lru, p, t.next);
    if ip in t.index {
      OwnNodes(t, a, ip);
      KeptNode(t, Updated(l, t, a, tag, now), ip);
    }
  }

  lemma {:induction false} BackInList(lru: seq<Node>, k: nat)
    requires k <= |lru|
    ensures forall n :: n in lru <==> n in lru[..k] || n in lru[k..]
  {
    assert lru == lru[..k] + lru[k..];
  }

  lemma {:induction false} InsertedNode(t: Table, k: nat, n: Node, s: Table, ip: string)
    requires Linked(t) && Linked(s) && k <= |t.lru| && IsInserted(t, k, n, s) && ip != n.ip
    ensures ip in s.index <==> ip in t.index && !exists m :: m in t.lru && m.ip == ip && m in t.lru[k..]
    ensures ip in s.index ==> NodeOf(s, ip) == NodeOf(t, ip)
  {
    BackInList(t.lru, k);
    if ip in s.index {
      assert NodeOf(t, ip) in t.lru[..k];
      KeptNode(t, s, ip);
    }
  }

  lemma {:induction false} InsertFate(l: Limits, t: Table, a: string, tag: string, now: nat, ip: string)
    requires Linked(t) && l.records >= 1 && a !in t.index && ip != a && Linked(Updated(l, t, a, tag, now))
    ensures
      var s := Updated(l, t, a, tag, now);
      && (ip in s.index <==> ip in t.index && !Taken(l, t, Update(a, tag), now, ip))
      && (ip in s.index ==> NodeOf(s, ip) == NodeOf(t, ip))
  {
    var k, n, s := Room(t, l.records - 1), Node(t.next, a, tag, now), Updated(l, t, a, tag, now);
    InsertedIs(l, t, a, tag, now);
    InsertedNode(t, k, n, s, ip);
    forall m ensures Takes(l, t, Update(a, tag), now, m) <==> m in t.lru[k..] {
    }
  }

  lemma {:induction false} InvalidateFate(t: Table, a: string, ip: string)
    requires Linked(t) && Linked(Invalidated(t, a))
    ensures
      var s := Invalidated(t, a);
      (ip in s.index <==> ip in t.index && ip != a) && (ip in s.index ==> NodeOf(s, ip) == NodeOf(t, ip))
  {
    if a in t.index && ip in t.index && ip != a {
      Dereferenced(t, a);
      var p := Position(t.lru, t.index[a]);
      DroppedMembers(t.lru, p, t.next);
      OwnNodes(t, a, ip);
      KeptNode(t, Invalidated(t, a), ip);
    }
  }

  lemma {:induction false} InvalidateTakes(l: Limits, t: Table, a: string, now: nat, ip: string)
    requires Linked(t) && l.records >= 1 && ip in t.index
    ensures Taken(l, t, Invalidate(a), now, ip) <==> ip == a
  {
    if ip == a {
      assert Takes(l, t, Invalidate(a), now, NodeOf(t, ip));
    } else if a in t.index {
      forall n | n in t.lru && n.id == t.index[a] ensures n.ip == a {
        SameNode(t, a, n);
      }
    }
  }

  lemma {:induction false} NodeFate(l: Limits, t: Table, tag: string, now: nat, ip: string)
    requires Linked(t) && l.records >= 1 && Linked(NodeInvalidated(t, tag))
    ensures
      var s := NodeInvalidated(t, tag);
      && (ip in s.index <==> ip in t.index && !Taken(l, t, InvalidateNode(tag), now, ip))
      && (ip in s.index ==> NodeOf(s, ip) == NodeOf(t, ip))
  {
    OthersMembers(t.lru, tag);
    var s := NodeInvalidated(t, tag);
    if ip in s.index {
      KeptNode(t, s, ip);
    }
  }

  lemma {:induction false} CleanupFate(l: Limits, t: Table, now: nat, ip: string)
    requires Linked(t) && Aged(t.lru, now) && l.records >= 1 && Linked(CleanedUp(l, t, now))
    ensures
      var s := CleanedUp(l, t, now);
      && (ip in s.index <==> ip in t.index && !Taken(l, t, Cleanup, now, ip))
      && (ip in s.index ==> NodeOf(s, ip) == NodeOf(t, ip))
  {
    CleanupExact(l, t, now, ip);
    var s := CleanedUp(l, t, now);
    if ip in s.index {
      KeptNode(t, s, ip);
    }
  }

  /** An address loses its key to an operation other than its own update exactly when the
      operation takes a node of the address, be it the indexed one or one left behind; as long
      as the key is there, its node is unchanged. */
  lemma {:induction false} KeyFate(l: Limits, t: Table, e: Event, before: nat, now: nat, ip: string)
    requires Kept(l, t, before) && before <= now && l.records >= 1 && !(e.Update? && e.ip == ip)
    ensures Kept(l, Step(l, t, e, now), now)
    ensures ip in Step(l, t, e, now).index <==> ip in t.index && !Taken(l, t, e, now, ip)
    ensures ip in Step(l, t, e, now).index ==> NodeOf(Step(l, t, e, now), ip) == NodeOf(t, ip)
  {
    StepLinked(l, t, e, before, now);
    match e
    case Update(a, tag) =>
      if a in t.index { TouchFate(l, t, a, tag, now, ip); } else { InsertFate(l, t, a, tag, now, ip); }
    case Invalidate(a) =>
      InvalidateFate(t, a, ip);
      if ip in t.index { InvalidateTakes(l, t, a, now, ip); }
    case InvalidateNode(tag) => NodeFate(l, t, tag, now, ip);
    case Cleanup => CleanupFate(l, t, now, ip);
    case Clear =>
      if ip in t.index { assert Takes(l, t, e, now, NodeOf(t, ip)); }
  }

  // ----- no answer is made up --------------------------------------------------------

  ghost predicate AllTold(events: seq<(Event, nat)>, t: Table)
    requires Linked(t)
  {
    forall ip :: ip in t.index ==> Told(events, t, ip)
  }

  /** What the history says of an address changes only with its node. */
  lemma {:induction false} StaysCurrent(l: Limits, events: seq<(Event, nat)>, t: Table, e: (Event, nat), ip: string)
    requires l.records >= 1 && Linked(t) && ip in t.index && Told(events, t, ip)
    requires !(e.0.Update? && e.0.ip == ip)
    ensures
      var m := Current(events + [e], ip);
      m == Current(events, ip) || (m == -1 && Taken(l, t, e.0, e.1, ip))
  {
    assert (events + [e])[..|events|] == events;
    var own := NodeOf(t, ip);
    if Takes(l, t, e.0, e.1, own) { assert Taken(l, t, e.0, e.1, ip); }
  }

  lemma {:induction false} StepTold(l: Limits, events: seq<(Event, nat)>, t: Table, e: (Event, nat),
                                    before: nat, ip: string)
    requires Kept(l, t, before) && before <= e.1 && l.records >= 1 && AllTold(events, t)
    ensures Kept(l, Step(l, t, e.0, e.1), e.1)
    ensures ip in Step(l, t, e.0, e.1).index ==> Told(events + [e], Step(l, t, e.0, e.1), ip)
  {
    StepLinked(l, t, e.0, before, e.1);
    if e.0.Update? && e.0.ip == ip {
      UpdateTells(l, t, ip, e.0.tag, e.1);
    } else {
      KeyFate(l, t, e.0, before, e.1, ip);
      if ip in Step(l, t, e.0, e.1).index {
        StaysCurrent(l, events, t, e, ip);
      }
    }
  }

  lemma {:induction false} RunTold(l: Limits, events: seq<(Event, nat)>)
    requires l.records >= 1 && Monotone(events)
    ensures AllTold(events, Run(l, events))
  {
    if events != [] {
      var front, e := events[..|events| - 1], events[|events| - 1];
      var t := Run(l, front);
      RunTold(l, front);
      assert events == front + [e];
      forall ip | ip in Run(l, events).index ensures Told(events, Run(l, events), ip) {
        StepTold(l, front, t, e, LastTime(front), ip);
      }
    }
  }

  /** After any run, cleanups included, a lookup answers nothing or the tag of the latest update
      that nothing has invalidated, and only within the timeout. */
  lemma {:induction false} NeverMadeUp(l: Limits, events: seq<(Event, nat)>, ip: string, now: nat)
    requires l.records >= 1 && Monotone(events)
    ensures
      var n, answer := Current(events, ip), Lookup(l, Run(l, events), ip, now);
      answer == None
      || (n >= 0 && answer == Some(events[n].0.tag) && WholeSeconds(events[n].1, now) <= l.timeout)
  {
    RunTold(l, events);
  }

  // ----- and when it is nothing ------------------------------------------------------

  /** Event m takes a node of ip from the table it meets. */
  ghost predicate TakenAt(l: Limits, events: seq<(Event, nat)>, m: nat, ip: string)
    requires l.records >= 1 && Monotone(events) && m < |events|
  {
    Taken(l, Run(l, events[..m]), events[m].0, events[m].1, ip)
  }

  ghost predicate Untouched(l: Limits, events: seq<(Event, nat)>, n: int, ip: string)
    requires l.records >= 1 && Monotone(events)
  {
    forall m: nat :: n < m < |events| ==> !TakenAt(l, events, m, ip)
  }

  lemma {:induction false} UntouchedStep(l: Limits, events: seq<(Event, nat)>, n: int, ip: string)
    requires l.records >= 1 && Monotone(events) && events != [] && n < |events| - 1
    ensures
      var k := |events| - 1;
      Untouched(l, events, n, ip)
      <==> Untouched(l, events[..k], n, ip) && !Taken(l, Run(l, events[..k]), events[k].0, events[k].1, ip)
  {
    var k := |events| - 1;
    var front := events[..k];
    forall m: nat | m < k ensures TakenAt(l, front, m, ip) == TakenAt(l, events, m, ip) {
      assert front[..m] == events[..m];
    }
    assert TakenAt(l, events, k, ip) == Taken(l, Run(l, front), events[k].0, events[k].1, ip);
  }

  /** Whether the key of ip is there, from the history of what was taken. */
  ghost predicate Survives(l: Limits, events: seq<(Event, nat)>, ip: string)
    requires l.records >= 1 && Monotone(events)
  {
    Current(events, ip) >= 0 && Untouched(l, events, Current(events, ip), ip)
  }

  lemma {:induction false} SurvivesStep(l: Limits, events: seq<(Event, nat)>, ip: string)
    requires l.records >= 1 && Monotone(events) && events != []
    requires !(events[|events| - 1].0.Update? && events[|events| - 1].0.ip == ip)
    requires ip in Run(l, events[..|events| - 1]).index <==> Survives(l, events[..|events| - 1], ip)
    ensures ip in Run(l, events).index <==> Survives(l, events, ip)
  {
    var front, e := events[..|events| - 1], events[|events| - 1];
    var t := Run(l, front);
    assert Run(l, events) == Step(l, t, e.0, e.1);
    KeyFate(l, t, e.0, LastTime(front), e.1, ip);
    if Current(events, ip) >= 0 {
      StillCurrent(events, ip);
      UntouchedStep(l, events, Current(events, ip), ip);
    } else if ip in t.index {
      DroppedIsTaken(l, events, ip);
    }
  }

  lemma {:induction false} StillCurrent(events: seq<(Event, nat)>, ip: string)
    requires events != [] && !(events[|events| - 1].0.Update? && events[|events| - 1].0.ip == ip)
    requires Current(events, ip) >= 0
    ensures Current(events, ip) == Current(events[..|events| - 1], ip)
  {
    var front, e := events[..|events| - 1], events[|events| - 1];
    assert events == front + [e];
    OnlyDrops(front, e, ip);
  }

  /** An address with a key whose update is no longer current loses the key. */
  lemma {:induction false} DroppedIsTaken(l: Limits, events: seq<(Event, nat)>, ip: string)
    requires l.records >= 1 && Monotone(events) && events != [] && Current(events, ip) < 0
    requires !(events[|events| - 1].0.Update? && events[|events| - 1].0.ip == ip)
    requires ip in Run(l, events[..|events| - 1]).index
    ensures Taken(l, Run(l, events[..|events| - 1]), events[|events| - 1].0, events[|events| - 1].1, ip)
  {
    var front, e := events[..|events| - 1], events[|events| - 1];
    assert events == front + [e];
    RunTold(l, front);
    StaysCurrent(l, front, Run(l, front), e, ip);
  }

  lemma {:induction false} KeySurvives(l: Limits, events: seq<(Event, nat)>, ip: string)
    requires l.records >= 1 && Monotone(events)
    ensures ip in Run(l, events).index <==> Survives(l, events, ip)
  {
    if events != [] {
      var front, e := events[..|events| - 1], events[|events| - 1];
      if e.0.Update? && e.0.ip == ip {
        StepLinked(l, Run(l, front), e.0, LastTime(front), e.1);
        UpdateTells(l, Run(l, front), ip, e.0.tag, e.1);
      } else {
        KeySurvives(l, front, ip);
        SurvivesStep(l, events, ip);
      }
    }
  }

  lemma {:induction false} OnlyDrops(events: seq<(Event, nat)>, e: (Event, nat), ip: string)
    requires !(e.0.Update? && e.0.ip == ip)
    ensures Current(events + [e], ip) == Current(events, ip) || Current(events + [e], ip) == -1
  {
    assert (events + [e])[..|events|] == events;
  }

  /** The answer after any run of all operations: that of the latest update that nothing has
      invalidated, exactly while the timeout has not passed and no operation since has taken a
      node of the address, neither the indexed one nor one that a cleanup has left behind. */
  lemma {:induction false} LookupIsHistory(l: Limits, events: seq<(Event, nat)>, ip: string, now: nat)
    requires l.records >= 1 && Monotone(events)
    ensures
      var n := Current(events, ip);
      Lookup(l, Run(l, events), ip, now)
      == if n >= 0 && Untouched(l, events, n, ip) && WholeSeconds(events[n].1, now) <= l.timeout
         then Some(events[n].0.tag) else None
  {
    RunTold(l, events);
    KeySurvives(l, events, ip);
  }

  // ----- nodes left behind -----------------------------------------------------------

  /** The node a key points at is the first, and so the newest, of its address. */
  ghost predicate KeyedFirst(lru: seq<Node>, index: map<string, nat>) {
    forall i, j :: 0 <= i < j < |lru| && lru[i].ip == lru[j].ip && lru[j].ip in index ==>
      index[lru[j].ip] != lru[j].id
  }

  lemma {:induction false} OthersKeyedFirst(lru: seq<Node>, index: map<string, nat>, tag: string)
    requires KeyedFirst(lru, index)
    ensures KeyedFirst(Others(lru, tag), index)
  {
    if lru != [] {
      var front, last := lru[..|lru| - 1], lru[|lru| - 1];
      OthersKeyedFirst(front, index, tag);
      OthersMembers(front, tag);
      var rest := Others(front, tag);
      forall i | 0 <= i < |rest| && rest[i].ip == last.ip && last.ip in index
        ensures index[last.ip] != last.id
      {
        assert rest[i] in front;
        var k :| 0 <= k < |front| && front[k] == rest[i];
        assert lru[k] == rest[i];
      }
    }
  }

  lemma {:induction false} DroppedKeyedFirst(lru: seq<Node>, index: map<string, nat>, p: nat)
    requires p < |lru| && KeyedFirst(lru, index)
    ensures KeyedFirst(Dropped(lru, p), index)
  {
    DroppedAt(lru, p);
  }

  lemma {:induction false} PushedKeyedFirst(n: Node, lru: seq<Node>, index: map<string, nat>)
    requires KeyedFirst(lru, index)
    requires forall m :: m in lru && m.ip == n.ip && n.ip in index ==> index[n.ip] != m.id
    ensures KeyedFirst([n] + lru, index)
  {
    var more := [n] + lru;
    forall j | 1 <= j < |more| ensures more[j] == lru[j - 1] && more[j] in lru {
    }
  }

  lemma {:induction false} TouchKeyedFirst(l: Limits, t: Table, a: string, tag: string, now: nat)
    requires Linked(t) && l.records >= 1 && a in t.index && KeyedFirst(t.lru, t.index)
    ensures var s := Updated(l, t, a, tag, now); KeyedFirst(s.lru, s.index)
  {
    Dereferenced(t, a);
    var p := Position(t.lru, t.index[a]);
    DroppedKeyedFirst(t.lru, t.index, p);
    DroppedMembers(t.lru, p, t.next);
    PushedKeyedFirst(t.lru[p].(tag := tag, at := now), Dropped(t.lru, p), t.index);
  }

  lemma {:induction false} InsertKeyedFirst(l: Limits, t: Table, a: string, tag: string, now: nat)
    requires Linked(t) && l.records >= 1 && a !in t.index && KeyedFirst(t.lru, t.index)
    ensures var s := Updated(l, t, a, tag, now); KeyedFirst(s.lru, s.index)
  {
    InsertedIs(l, t, a, tag, now);
    InsertedFirst(t, Room(t, l.records - 1), Node(t.next, a, tag, now), Updated(l, t, a, tag, now));
  }

  lemma {:induction false} InsertedFirst(t: Table, k: nat, n: Node, s: Table)
    requires Linked(t) && k <= |t.lru| && IsInserted(t, k, n, s) && n.id == t.next && KeyedFirst(t.lru, t.index)
    ensures KeyedFirst(s.lru, s.index)
  {
    FewerKeyedFirst(t.lru, t.index, t.lru[..k], s.index, n.id);
    PushedKeyedFirst(n, t.lru[..k], s.index);
  }

  /** A front of the list, some of the keys, and perhaps a new key for a node to come. */
  lemma FewerKeyedFirst(lru: seq<Node>, index: map<string, nat>, front: seq<Node>,
                        fewer: map<string, nat>, id: nat)
    requires KeyedFirst(lru, index) && front <= lru && forall i :: 0 <= i < |lru| ==> lru[i].id != id
    requires forall ip :: ip in fewer ==> fewer[ip] == id || (ip in index && index[ip] == fewer[ip])
    ensures KeyedFirst(front, fewer)
    ensures forall m :: m in front ==> m.id != id
  {
  }

  lemma {:induction false} StepKeyedFirst(l: Limits, t: Table, e: Event, now: nat)
    requires Linked(t) && l.records >= 1 && KeyedFirst(t.lru, t.index)
    ensures var s := Step(l, t, e, now); KeyedFirst(s.lru, s.index)
  {
    match e
    case Update(a, tag) =>
      if a in t.index { TouchKeyedFirst(l, t, a, tag, now); } else { InsertKeyedFirst(l, t, a, tag, now); }
    case Invalidate(a) =>
      if a in t.index {
        Dereferenced(t, a);
        DroppedKeyedFirst(t.lru, t.index, Position(t.lru, t.index[a]));
      }
    case InvalidateNode(tag) => OthersKeyedFirst(t.lru, t.index, tag);
    case Cleanup =>
    case Clear =>
  }

  lemma {:induction false} RunKeyedFirst(l: Limits, events: seq<(Event, nat)>)
    requires l.records >= 1 && Monotone(events)
    ensures KeyedFirst(Run(l, events).lru, Run(l, events).index)
  {
    if events != [] {
      var front, e := events[..|events| - 1], events[|events| - 1];
      RunKeyedFirst(l, front);
      StepKeyedFirst(l, Run(l, front), e.0, e.1);
    }
  }

  /** A node of ip that its key does not point at. */
  ghost predicate LeftBehind(t: Table, ip: string, n: Node)
    requires ip in t.index
  {
    n in t.lru && n.ip == ip && n.id != t.index[ip]
  }

  lemma {:induction false} LeftBehindIsOlder(t: Table, ip: string, n: Node, now: nat)
    requires Linked(t) && Aged(t.lru, now) && KeyedFirst(t.lru, t.index)
    requires ip in t.index && LeftBehind(t, ip, n)
    ensures n.at <= NodeOf(t, ip).at
  {
    var own := NodeOf(t, ip);
    var i :| 0 <= i < |t.lru| && t.lru[i] == n;
    var j :| 0 <= j < |t.lru| && t.lru[j] == own;
    assert !(i < j);
  }

  lemma {:induction false} TakenOld(l: Limits, t: Table, e: Event, before: nat, now: nat, ip: string)
    requires l.records >= 1 && Kept(l, t, before) && KeyedFirst(t.lru, t.index)
    requires ip in t.index && !Takes(l, t, e, now, NodeOf(t, ip))
    ensures Taken(l, t, e, now, ip)
      <==> exists n :: LeftBehind(t, ip, n) && n.at <= NodeOf(t, ip).at && Takes(l, t, e, now, n)
  {
    if Taken(l, t, e, now, ip) {
      var n :| n in t.lru && n.ip == ip && Takes(l, t, e, now, n);
      OwnOrLeft(t, ip, n);
      LeftBehindIsOlder(t, ip, n, before);
    }
  }

  lemma {:induction false} OwnOrLeft(t: Table, ip: string, n: Node)
    requires Linked(t) && ip in t.index && n in t.lru && n.ip == ip
    ensures n == NodeOf(t, ip) || LeftBehind(t, ip, n)
  {
    if n.id == t.index[ip] { SameNode(t, ip, n); }
  }

  /** After any run, an operation that leaves an address's own node alone drops its key all the
      same exactly when it takes an older node of the address that was left behind: by pushing
      it out, by erasing the nodes with its old tag, or by finding it expired. */
  lemma {:induction false} LostToOldNode(l: Limits, events: seq<(Event, nat)>, e: Event, now: nat, ip: string)
    requires l.records >= 1 && Monotone(events) && LastTime(events) <= now && !(e.Update? && e.ip == ip)
    requires ip in Run(l, events).index && !Takes(l, Run(l, events), e, now, NodeOf(Run(l, events), ip))
    ensures
      var t := Run(l, events);
      ip !in Step(l, t, e, now).index
      <==> exists n :: LeftBehind(t, ip, n) && n.at <= NodeOf(t, ip).at && Takes(l, t, e, now, n)
  {
    var t := Run(l, events);
    RunKeyedFirst(l, events);
    KeyFate(l, t, e, LastTime(events), now, ip);
    TakenOld(l, t, e, LastTime(events), now, ip);
  }

  /** Without cleanups no node is left behind, so nothing is lost that way. */
  lemma {:induction false} NoneLeftBehind(l: Limits, events: seq<(Event, nat)>, ip: string, n: Node)
    requires l.records >= 1 && Monotone(events) && NoCleanup(events) && ip in Run(l, events).index
    ensures !LeftBehind(Run(l, events), ip, n)
  {
    RunBijective(l, events);
    OneNodeEach(Run(l, events), ip, n);
  }

  lemma {:induction false} OneNodeEach(t: Table, ip: string, n: Node)
    requires Linked(t) && Bijective(t) && ip in t.index
    ensures n in t.lru && n.ip == ip ==> n == NodeOf(t, ip)
  {
    var own := NodeOf(t, ip);
    if n in t.lru && n.ip == ip {
      var i :| 0 <= i < |t.lru| && t.lru[i] == n;
      var j :| 0 <= j < |t.lru| && t.lru[j] == own;
      assert i == j;
    }
  }

  const SHORT := Limits(1, 2)
  const LATE := 2 * NANOS
  const FIRST := Node(0, "a", "x", 0)
  const SECOND := Node(1, "a", "y", LATE)

  lemma {:induction false} TwinSteps()
    ensures Step(SHORT, Table([], map[], 0), Update("a", "x"), 0) == Table([FIRST], map["a" := 0], 1)
    ensures CleanedUp(SHORT, Table([FIRST], map["a" := 0], 1), LATE) == Table([FIRST], map[], 1)
    ensures Updated(SHORT, Table([FIRST], map[], 1), "a", "y", LATE)
         == Table([SECOND, FIRST], map["a" := 1], 2)
  {
    assert [FIRST][..0] == [];
  }

  const TWIN := Table([SECOND, FIRST], map["a" := 1], 2)

  /** One cleanup of a table with one expired record, and a second update of its address. */
  lemma {:induction false} TwinRun() returns (events: seq<(Event, nat)>)
    ensures Monotone(events) && LastTime(events) == LATE
    ensures Run(SHORT, events) == TWIN
  {
    TwinSteps();
    RunPush(SHORT, [], Update("a", "x"), 0);
    events := [] + [(Update("a", "x"), 0)];
    RunPush(SHORT, events, Cleanup, LATE);
    events := events + [(Cleanup, LATE)];
    RunPush(SHORT, events, Update("a", "y"), LATE);
    events := events + [(Update("a", "y"), LATE)];
  }

  lemma {:induction false} TakesFirst(e: Event)
    requires e == Cleanup || e == InvalidateNode("x") || e == Update("b", "z")
    ensures Taken(SHORT, TWIN, e, LATE, "a")
  {
    assert FIRST in TWIN.lru && [SECOND, FIRST][1..] == [FIRST];
    assert Takes(SHORT, TWIN, e, LATE, FIRST);
  }

  lemma {:induction false} FreshFirst()
    requires Linked(TWIN)
    ensures Lookup(SHORT, TWIN, "a", LATE) == Some("y")
  {
    assert SECOND in TWIN.lru;
    SameNode(TWIN, "a", SECOND);
  }

  /** A fresh affinity can be lost in each of the three ways after a single cleanup. */
  lemma {:induction false} FreshLost(e: Event)
    requires e == Cleanup || e == InvalidateNode("x") || e == Update("b", "z")
    ensures exists events: seq<(Event, nat)> ::
      (Monotone(events + [(e, LATE)]) && Monotone(events)
       && Lookup(SHORT, Run(SHORT, events), "a", LATE) == Some("y")
       && Lookup(SHORT, Run(SHORT, events + [(e, LATE)]), "a", LATE) == None)
  {
    var events := TwinRun();
    RunPush(SHORT, events, e, LATE);
    FreshFirst();
    TakesFirst(e);
    KeyFate(SHORT, TWIN, e, LATE, LATE, "a");
  }
}

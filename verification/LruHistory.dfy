/** Without cleanups, which nothing in the program asks for, the affinity table answers as a
    function of the history alone: it is the cache of the `records` addresses last updated. */
module LruHistory {
  import opened Wrappers
  import opened Clock
  import opened IpAffinity
  import opened AffinityHistory

  // ----- the other addresses ---------------------------------------------------------

  /** The addresses updated after event n and not invalidated since. */
  function LiveSince(events: seq<(Event, nat)>, n: int): set<string>
    requires n >= -1
  {
    set i | n < i < |events| && events[i].0.Update? && Current(events, events[i].0.ip) == i :: events[i].0.ip
  }

  lemma {:induction false} InLive(events: seq<(Event, nat)>, n: int, a: string)
    requires n >= -1
    ensures a in LiveSince(events, n) <==> Current(events, a) > n
  {
    var c := Current(events, a);
    if c > n { assert events[c].0.Update? && Current(events, events[c].0.ip) == c; }
  }

  /** As many others are live before event m as the table has records. */
  ghost predicate CrowdedAt(l: Limits, events: seq<(Event, nat)>, n: nat, m: nat)
    requires m <= |events|
  {
    |LiveSince(events[..m], n)| >= l.records
  }

  /** At some moment since event n. */
  ghost predicate Crowded(l: Limits, events: seq<(Event, nat)>, n: nat) {
    exists m: nat :: n < m <= |events| && CrowdedAt(l, events, n, m)
  }

  lemma {:induction false} CrowdedBefore(l: Limits, events: seq<(Event, nat)>, e: (Event, nat), n: nat, m: nat)
    requires m <= |events|
    ensures CrowdedAt(l, events + [e], n, m) == CrowdedAt(l, events, n, m)
  {
    assert (events + [e])[..m] == events[..m];
  }

  lemma {:induction false} CrowdedStep(l: Limits, events: seq<(Event, nat)>, e: (Event, nat), n: nat)
    requires n <= |events|
    ensures Crowded(l, events + [e], n) <==> Crowded(l, events, n) || |LiveSince(events + [e], n)| >= l.records
  {
    var more := events + [e];
    forall m: nat | m <= |events| ensures CrowdedAt(l, more, n, m) == CrowdedAt(l, events, n, m) {
      CrowdedBefore(l, events, e, n, m);
    }
    assert more[..|more|] == more;
    assert CrowdedAt(l, more, n, |more|) <==> |LiveSince(more, n)| >= l.records;
  }

  lemma {:induction false} CurrentPush(events: seq<(Event, nat)>, e: (Event, nat), a: string)
    ensures
      var c := Current(events, a);
      Current(events + [e], a)
      == match e.0
         case Update(b, _) => if b == a then |events| else c
         case Invalidate(b) => if b == a then -1 else c
         case InvalidateNode(tag) => if c >= 0 && events[c].0.tag == tag then -1 else c
         case Cleanup => c
         case Clear => -1
  {
    assert (events + [e])[..|events|] == events;
  }

  // ----- the list is in the order of the history -------------------------------------

  ghost predicate NodeTold(events: seq<(Event, nat)>, n: Node) {
    var c := Current(events, n.ip);
    c >= 0 && n.tag == events[c].0.tag && n.at == events[c].1
  }

  /** From front to back, the nodes go back in the history. */
  ghost predicate Ranked(events: seq<(Event, nat)>, lru: seq<Node>) {
    && (forall p :: 0 <= p < |lru| ==> NodeTold(events, lru[p]))
    && (forall p, q :: 0 <= p < q < |lru| ==> Current(events, lru[p].ip) > Current(events, lru[q].ip))
  }

  ghost predicate BehindAll(events: seq<(Event, nat)>, lru: seq<Node>, a: string) {
    forall p :: 0 <= p < |lru| ==> Current(events, a) < Current(events, lru[p].ip)
  }

  /** And what is missing from the list was updated before all of it, or is not current. */
  ghost predicate InOrder(events: seq<(Event, nat)>, t: Table) {
    Ranked(events, t.lru) && forall a :: a !in t.index ==> BehindAll(events, t.lru, a)
  }

  lemma {:induction false} RankedLater(events: seq<(Event, nat)>, e: (Event, nat), lru: seq<Node>)
    requires Ranked(events, lru)
    requires forall n :: n in lru ==> Current(events + [e], n.ip) == Current(events, n.ip)
    ensures Ranked(events + [e], lru)
  {
    forall p | 0 <= p < |lru| ensures Current(events + [e], lru[p].ip) == Current(events, lru[p].ip) {
      assert lru[p] in lru;
    }
  }

  lemma {:induction false} RankedPush(events: seq<(Event, nat)>, n: Node, lru: seq<Node>)
    requires Ranked(events, lru) && NodeTold(events, n)
    requires forall p :: 0 <= p < |lru| ==> Current(events, n.ip) > Current(events, lru[p].ip)
    ensures Ranked(events, [n] + lru)
  {
    var more := [n] + lru;
    forall p | 1 <= p < |more| ensures more[p] == lru[p - 1] {
    }
  }

  lemma {:induction false} RankedDropped(events: seq<(Event, nat)>, lru: seq<Node>, p: nat)
    requires Ranked(events, lru) && p < |lru|
    ensures Ranked(events, Dropped(lru, p))
  {
    DroppedAt(lru, p);
  }

  lemma {:induction false} RankedAppend(events: seq<(Event, nat)>, lru: seq<Node>, last: Node)
    requires Ranked(events, lru) && NodeTold(events, last)
    requires forall m :: m in lru ==> Current(events, m.ip) > Current(events, last.ip)
    ensures Ranked(events, lru + [last])
  {
    forall p | 0 <= p < |lru| ensures Current(events, lru[p].ip) > Current(events, last.ip) {
      assert lru[p] in lru;
    }
  }

  lemma RankedFront(events: seq<(Event, nat)>, lru: seq<Node>)
    requires Ranked(events, lru) && lru != []
    ensures Ranked(events, lru[..|lru| - 1]) && NodeTold(events, lru[|lru| - 1])
    ensures forall m :: m in lru[..|lru| - 1] ==> Current(events, m.ip) > Current(events, lru[|lru| - 1].ip)
  {
  }

  lemma {:induction false} RankedOthers(events: seq<(Event, nat)>, lru: seq<Node>, tag: string)
    requires Ranked(events, lru)
    ensures Ranked(events, Others(lru, tag))
  {
    if lru != [] {
      var front, last := lru[..|lru| - 1], lru[|lru| - 1];
      RankedFront(events, lru);
      RankedOthers(events, front, tag);
      OthersMembers(front, tag);
      if last.tag != tag { RankedAppend(events, Others(front, tag), last); }
    }
  }

  lemma {:induction false} OtherAddress(t: Table, p: nat, n: Node)
    requires Bijective(t) && p < |t.lru| && n in Dropped(t.lru, p)
    ensures n in t.lru && n.ip != t.lru[p].ip
  {
    DroppedAt(t.lru, p);
    var d := Dropped(t.lru, p);
    var i :| 0 <= i < |d| && d[i] == n;
    assert n == t.lru[if i < p then i else i + 1];
  }

  lemma {:induction false} TouchInOrder(l: Limits, events: seq<(Event, nat)>, t: Table, a: string, tag: string,
                                        now: nat)
    requires Linked(t) && Bijective(t) && l.records >= 1 && InOrder(events, t) && a in t.index
    ensures InOrder(events + [(Update(a, tag), now)], Updated(l, t, a, tag, now))
  {
    Dereferenced(t, a);
    var p := Position(t.lru, t.index[a]);
    var d, n, e := Dropped(t.lru, p), t.lru[p].(tag := tag, at := now), (Update(a, tag), now);
    CurrentPush(events, e, a);
    forall m | m in d ensures m.ip != a && Current(events + [e], m.ip) == Current(events, m.ip) {
      OtherAddress(t, p, m);
      CurrentPush(events, e, m.ip);
    }
    RankedDropped(events, t.lru, p);
    RankedLater(events, e, d);
    forall q | 0 <= q < |d| ensures Current(events + [e], d[q].ip) < |events| {
      assert d[q] in d;
    }
    RankedPush(events + [e], n, d);
    forall b | b !in t.index ensures BehindAll(events + [e], [n] + d, b) {
      CurrentPush(events, e, b);
      assert BehindAll(events, t.lru, b);
      BehindFewer(events, t.lru, p, b);
      BehindPush(events, e, n, d, b);
    }
  }

  lemma {:induction false} BehindFewer(events: seq<(Event, nat)>, lru: seq<Node>, p: nat, a: string)
    requires BehindAll(events, lru, a) && p < |lru|
    ensures BehindAll(events, Dropped(lru, p), a)
  {
    DroppedAt(lru, p);
  }

  /** The updated node goes in front, the rest and the address keep their places. */
  lemma {:induction false} BehindPush(events: seq<(Event, nat)>, e: (Event, nat), n: Node, lru: seq<Node>, a: string)
    requires BehindAll(events, lru, a) && Current(events + [e], a) == Current(events, a)
    requires forall m :: m in lru ==> Current(events + [e], m.ip) == Current(events, m.ip)
    requires Current(events + [e], n.ip) == |events|
    ensures BehindAll(events + [e], [n] + lru, a)
  {
    var more := [n] + lru;
    forall p | 1 <= p < |more| ensures more[p] == lru[p - 1] && more[p] in lru {
    }
  }

  lemma {:induction false} InsertInOrder(l: Limits, events: seq<(Event, nat)>, t: Table,
                                         a: string, tag: string, now: nat)
    requires Linked(t) && Bijective(t) && l.records >= 1 && InOrder(events, t) && a !in t.index
    ensures InOrder(events + [(Update(a, tag), now)], Updated(l, t, a, tag, now))
  {
    InsertedIs(l, t, a, tag, now);
    InsertedInOrder(events, t, Room(t, l.records - 1), Node(t.next, a, tag, now),
      Updated(l, t, a, tag, now), (Update(a, tag), now));
  }

  lemma {:induction false} InsertedInOrder(events: seq<(Event, nat)>, t: Table, k: nat, n: Node,
                                           s: Table, e: (Event, nat))
    requires Bijective(t) && InOrder(events, t) && k <= |t.lru| && IsInserted(t, k, n, s)
    requires e.0.Update? && e.0.ip !in t.index && n.ip == e.0.ip && n.tag == e.0.tag && n.at == e.1
    ensures InOrder(events + [e], s)
  {
    InsertRanked(events, t, k, n, e);
    forall b | b !in s.index ensures BehindAll(events + [e], s.lru, b) {
      EvictedBehind(events, t, k, n, s, b);
      InsertBehind(events, t, k, n, e, b);
    }
  }

  lemma {:induction false} FrontUnchanged(events: seq<(Event, nat)>, t: Table, k: nat, e: (Event, nat), m: Node)
    requires Bijective(t) && k <= |t.lru| && e.0.Update? && e.0.ip !in t.index && m in t.lru[..k]
    ensures Current(events + [e], m.ip) == Current(events, m.ip) < |events|
  {
    var i :| 0 <= i < k && t.lru[i] == m;
    CurrentPush(events, e, m.ip);
  }

  lemma {:induction false} InsertRanked(events: seq<(Event, nat)>, t: Table, k: nat, n: Node, e: (Event, nat))
    requires Bijective(t) && Ranked(events, t.lru) && k <= |t.lru| && e.0.Update? && e.0.ip !in t.index
    requires n.ip == e.0.ip && n.tag == e.0.tag && n.at == e.1
    ensures Ranked(events + [e], [n] + t.lru[..k])
  {
    var d := t.lru[..k];
    CurrentPush(events, e, n.ip);
    forall m | m in d ensures Current(events + [e], m.ip) == Current(events, m.ip) < |events| {
      FrontUnchanged(events, t, k, e, m);
    }
    RankedLater(events, e, d);
    forall q | 0 <= q < |d| ensures Current(events + [e], d[q].ip) < |events| {
      assert d[q] in d;
    }
    RankedPush(events + [e], n, d);
  }

  lemma {:induction false} InsertBehind(events: seq<(Event, nat)>, t: Table, k: nat, n: Node,
                                        e: (Event, nat), b: string)
    requires Bijective(t) && k <= |t.lru| && BehindAll(events, t.lru[..k], b) && b != n.ip
    requires e.0.Update? && e.0.ip !in t.index && n.ip == e.0.ip
    ensures BehindAll(events + [e], [n] + t.lru[..k], b)
  {
    CurrentPush(events, e, b);
    CurrentPush(events, e, n.ip);
    forall m | m in t.lru[..k] ensures Current(events + [e], m.ip) == Current(events, m.ip) {
      FrontUnchanged(events, t, k, e, m);
    }
    BehindPush(events, e, n, t.lru[..k], b);
  }

  lemma {:induction false} FoundBehind(lru: seq<Node>, k: nat, n: Node) returns (i: nat)
    requires k <= |lru| && n in lru[k..]
    ensures k <= i < |lru| && lru[i] == n
  {
    var back := lru[k..];
    var j :| 0 <= j < |back| && back[j] == n;
    i := k + j;
  }

  lemma RankedBehind(events: seq<(Event, nat)>, lru: seq<Node>, k: nat, i: nat)
    requires Ranked(events, lru) && k <= i < |lru|
    ensures BehindAll(events, lru[..k], lru[i].ip)
  {
  }

  lemma {:induction false} EvictedBehind(events: seq<(Event, nat)>, t: Table, k: nat, n: Node, s: Table, b: string)
    requires InOrder(events, t) && k <= |t.lru| && IsInserted(t, k, n, s) && b !in s.index
    ensures BehindAll(events, t.lru[..k], b)
  {
    if b in t.index {
      var m :| m in t.lru[k..] && m.ip == b;
      var i := FoundBehind(t.lru, k, m);
      RankedBehind(events, t.lru, k, i);
    } else {
      assert BehindAll(events, t.lru, b);
    }
  }

  lemma {:induction false} InvalidateInOrder(events: seq<(Event, nat)>, t: Table, a: string, now: nat)
    requires Linked(t) && Bijective(t) && InOrder(events, t)
    ensures InOrder(events + [(Invalidate(a), now)], Invalidated(t, a))
  {
    var e, s := (Invalidate(a), now), Invalidated(t, a);
    InvalidatedList(events, t, a);
    forall m | m in s.lru ensures Current(events + [e], m.ip) == Current(events, m.ip) {
      CurrentPush(events, e, m.ip);
    }
    RankedLater(events, e, s.lru);
    forall b | b !in s.index ensures BehindAll(events + [e], s.lru, b) {
      CurrentPush(events, e, b);
      if b == a { Behind(events + [e], s.lru, b); } else { BehindLater(events, e, s.lru, b); }
    }
  }

  lemma {:induction false} InvalidatedList(events: seq<(Event, nat)>, t: Table, a: string)
    requires Linked(t) && Bijective(t) && InOrder(events, t)
    ensures
      var s := Invalidated(t, a);
      && Ranked(events, s.lru)
      && (forall m :: m in s.lru ==> m.ip != a)
      && (forall b :: b != a && b !in s.index ==> BehindAll(events, s.lru, b))
  {
    if a in t.index {
      Dereferenced(t, a);
      var p := Position(t.lru, t.index[a]);
      RankedDropped(events, t.lru, p);
      forall m | m in Dropped(t.lru, p) ensures m.ip != a { OtherAddress(t, p, m); }
      forall b | b !in t.index ensures BehindAll(events, Dropped(t.lru, p), b) {
        assert BehindAll(events, t.lru, b);
        BehindFewer(events, t.lru, p, b);
      }
    } else {
      forall m | m in t.lru ensures m.ip != a { assert m.ip in t.index; }
    }
  }

  lemma {:induction false} Behind(events: seq<(Event, nat)>, lru: seq<Node>, a: string)
    requires Ranked(events, lru) && Current(events, a) == -1
    ensures BehindAll(events, lru, a)
  {
    assert forall p :: 0 <= p < |lru| ==> NodeTold(events, lru[p]);
  }

  lemma {:induction false} BehindLater(events: seq<(Event, nat)>, e: (Event, nat), lru: seq<Node>, a: string)
    requires BehindAll(events, lru, a) && Current(events + [e], a) <= Current(events, a)
    requires forall m :: m in lru ==> Current(events + [e], m.ip) == Current(events, m.ip)
    ensures BehindAll(events + [e], lru, a)
  {
    forall p | 0 <= p < |lru| ensures Current(events + [e], a) < Current(events + [e], lru[p].ip) {
      assert lru[p] in lru;
    }
  }

  lemma {:induction false} NodeInOrder(events: seq<(Event, nat)>, t: Table, tag: string, now: nat)
    requires Bijective(t) && InOrder(events, t)
    ensures InOrder(events + [(InvalidateNode(tag), now)], NodeInvalidated(t, tag))
  {
    var e, s := (InvalidateNode(tag), now), NodeInvalidated(t, tag);
    OthersMembers(t.lru, tag);
    RankedOthers(events, t.lru, tag);
    forall m | m in t.lru ensures NodeTold(events, m) {
      var i :| 0 <= i < |t.lru| && t.lru[i] == m;
    }
    forall m | m in s.lru ensures Current(events + [e], m.ip) == Current(events, m.ip) {
      CurrentPush(events, e, m.ip);
    }
    RankedLater(events, e, s.lru);
    forall b | b !in s.index ensures BehindAll(events + [e], s.lru, b) {
      CurrentPush(events, e, b);
      if b in t.index {
        assert Current(events + [e], b) == -1;
        Behind(events + [e], s.lru, b);
      } else {
        assert BehindAll(events, t.lru, b);
        BehindOthers(events, t.lru, tag, b);
        BehindLater(events, e, s.lru, b);
      }
    }
  }

  lemma {:induction false} BehindOthers(events: seq<(Event, nat)>, lru: seq<Node>, tag: string, a: string)
    requires BehindAll(events, lru, a)
    ensures BehindAll(events, Others(lru, tag), a)
  {
    OthersMembers(lru, tag);
    var o := Others(lru, tag);
    forall p | 0 <= p < |o| ensures Current(events, a) < Current(events, o[p].ip) {
      assert o[p] in lru;
      var i :| 0 <= i < |lru| && lru[i] == o[p];
    }
  }

  lemma {:induction false} StepInOrder(l: Limits, events: seq<(Event, nat)>, t: Table, e: (Event, nat))
    requires Linked(t) && Bijective(t) && l.records >= 1 && InOrder(events, t) && !e.0.Cleanup?
    ensures InOrder(events + [e], Step(l, t, e.0, e.1))
  {
    match e.0
    case Update(a, tag) =>
      if a in t.index { TouchInOrder(l, events, t, a, tag, e.1); }
      else { InsertInOrder(l, events, t, a, tag, e.1); }
    case Invalidate(a) => InvalidateInOrder(events, t, a, e.1);
    case InvalidateNode(tag) => NodeInOrder(events, t, tag, e.1);
    case Clear =>
  }

  lemma {:induction false} PushInOrder(l: Limits, events: seq<(Event, nat)>, e: Event, now: nat)
    requires l.records >= 1 && Monotone(events) && LastTime(events) <= now && !e.Cleanup?
    requires Bijective(Run(l, events)) && InOrder(events, Run(l, events))
    ensures Monotone(events + [(e, now)]) && InOrder(events + [(e, now)], Run(l, events + [(e, now)]))
  {
    StepInOrder(l, events, Run(l, events), (e, now));
    RunPush(l, events, e, now);
  }

  lemma {:induction false} RunInOrder(l: Limits, events: seq<(Event, nat)>)
    requires l.records >= 1 && Monotone(events) && NoCleanup(events)
    ensures InOrder(events, Run(l, events))
  {
    if events != [] {
      var front, e := events[..|events| - 1], events[|events| - 1];
      RunInOrder(l, front);
      RunBijective(l, front);
      PushInOrder(l, front, e.0, e.1);
      assert events == front + [e];
    }
  }

  // ----- and what is in it -----------------------------------------------------------

  /** The nodes ahead of one are those of the addresses live since its update. */
  lemma {:induction false} AheadIsLive(events: seq<(Event, nat)>, t: Table, p: nat)
    requires Linked(t) && Bijective(t) && InOrder(events, t) && p < |t.lru|
    ensures Current(events, t.lru[p].ip) >= 0
    ensures Ahead(t.lru, p) == LiveSince(events, Current(events, t.lru[p].ip))
    ensures |Ahead(t.lru, p)| == p
  {
    assert NodeTold(events, t.lru[p]);
    var n := Current(events, t.lru[p].ip);
    AheadCount(t.lru, p);
    forall a ensures a in Ahead(t.lru, p) <==> a in LiveSince(events, n) {
      InLive(events, n, a);
      if a in t.index {
        Dereferenced(t, a);
      } else {
        assert BehindAll(events, t.lru, a);
      }
    }
  }

  function Ahead(lru: seq<Node>, p: nat): set<string>
    requires p <= |lru|
  {
    set i | 0 <= i < p :: lru[i].ip
  }

  lemma {:induction false} AheadCount(lru: seq<Node>, p: nat)
    requires p <= |lru| && forall i, j :: 0 <= i < j < |lru| ==> lru[i].ip != lru[j].ip
    ensures |Ahead(lru, p)| == p
  {
    if p > 0 {
      AheadCount(lru, p - 1);
      assert Ahead(lru, p) == Ahead(lru, p - 1) + {lru[p - 1].ip};
    }
  }

  /** The keys are those of the current addresses that have never been crowded out. */
  ghost predicate Sized(l: Limits, events: seq<(Event, nat)>, t: Table) {
    forall ip :: SizedAt(l, events, t, ip)
  }

  /** An address with a key is not crowded now. */
  lemma {:induction false} NotCrowdedNow(l: Limits, events: seq<(Event, nat)>, t: Table, ip: string)
    requires Linked(t) && Bijective(t) && InOrder(events, t) && |t.lru| <= l.records && ip in t.index
    ensures Current(events, ip) >= 0 && |LiveSince(events, Current(events, ip))| < l.records
  {
    Dereferenced(t, ip);
    AheadIsLive(events, t, Position(t.lru, t.index[ip]));
  }

  /** The address that is pushed out is crowded by the one that comes in. */
  lemma {:induction false} PushedOut(l: Limits, events: seq<(Event, nat)>, t: Table, e: (Event, nat), ip: string)
    requires Linked(t) && Bijective(t) && InOrder(events, t) && |t.lru| <= l.records && l.records >= 1
    requires e.0.Update? && e.0.ip !in t.index && ip in t.index
    requires Takes(l, t, e.0, e.1, NodeOf(t, ip))
    ensures Current(events, ip) >= 0 && |LiveSince(events + [e], Current(events, ip))| >= l.records
  {
    var own, k := NodeOf(t, ip), Room(t, l.records - 1);
    var i :| 0 <= i < |t.lru[k..]| && t.lru[k..][i] == own;
    var p := k + i;
    assert t.lru[p] == own && p == l.records - 1;
    AheadIsLive(events, t, p);
    assert BehindAll(events, t.lru, e.0.ip);
    OneMoreLive(events, e, Current(events, ip));
  }

  lemma {:induction false} OneMoreLive(events: seq<(Event, nat)>, e: (Event, nat), n: nat)
    requires n < |events| && e.0.Update? && Current(events, e.0.ip) < n
    ensures |LiveSince(events + [e], n)| == |LiveSince(events, n)| + 1
  {
    var more := events + [e];
    forall a ensures a in LiveSince(more, n) <==> a in LiveSince(events, n) + {e.0.ip} {
      InLive(events, n, a);
      InLive(more, n, a);
      CurrentPush(events, e, a);
    }
    InLive(events, n, e.0.ip);
    assert LiveSince(more, n) == LiveSince(events, n) + {e.0.ip};
  }

  /** An address that loses its key while its update stays current is crowded. */
  lemma {:induction false} LostIsCrowded(l: Limits, events: seq<(Event, nat)>, t: Table, e: (Event, nat), ip: string)
    requires l.records >= 1 && Linked(t) && Bijective(t) && InOrder(events, t) && |t.lru| <= l.records
    requires ip in t.index && Taken(l, t, e.0, e.1, ip) && !e.0.Cleanup? && !(e.0.Update? && e.0.ip == ip)
    requires Current(events + [e], ip) >= 0
    ensures Crowded(l, events + [e], Current(events + [e], ip))
  {
    CurrentPush(events, e, ip);
    TakenIsOwn(l, t, e, ip);
    OwnIsTold(events, t, ip);
    PushedOut(l, events, t, e, ip);
    CrowdedStep(l, events, e, Current(events, ip));
  }

  ghost predicate SizedAt(l: Limits, events: seq<(Event, nat)>, t: Table, ip: string) {
    ip in t.index <==> Current(events, ip) >= 0 && !Crowded(l, events, Current(events, ip))
  }

  /** The table after one more operation is in order. */
  lemma {:induction false} StepSound(l: Limits, events: seq<(Event, nat)>, t: Table, e: (Event, nat), before: nat)
    requires l.records >= 1 && Kept(l, t, before) && before <= e.1 && !e.0.Cleanup?
    requires Bijective(t) && InOrder(events, t)
    ensures
      var s := Step(l, t, e.0, e.1);
      Linked(s) && |s.lru| <= l.records && Bijective(s) && InOrder(events + [e], s)
  {
    StepLinked(l, t, e.0, before, e.1);
    StepBijective(l, t, e.0, e.1);
    StepInOrder(l, events, t, e);
  }

  lemma {:induction false} OwnUpdateSized(l: Limits, events: seq<(Event, nat)>, t: Table, e: (Event, nat), before: nat)
    requires l.records >= 1 && Kept(l, t, before) && before <= e.1 && e.0.Update?
    requires Bijective(t) && InOrder(events, t)
    ensures SizedAt(l, events + [e], Step(l, t, e.0, e.1), e.0.ip)
  {
    StepSound(l, events, t, e, before);
    CurrentPush(events, e, e.0.ip);
    UpdateTells(l, t, e.0.ip, e.0.tag, e.1);
    CrowdedStep(l, events, e, |events|);
    NotCrowdedNow(l, events + [e], Step(l, t, e.0, e.1), e.0.ip);
  }

  lemma {:induction false} StepSized(l: Limits, events: seq<(Event, nat)>, t: Table, e: (Event, nat),
                                     before: nat, ip: string)
    requires l.records >= 1 && Kept(l, t, before) && before <= e.1 && !e.0.Cleanup?
    requires Bijective(t) && InOrder(events, t) && SizedAt(l, events, t, ip)
    requires !(e.0.Update? && e.0.ip == ip)
    ensures SizedAt(l, events + [e], Step(l, t, e.0, e.1), ip)
  {
    var more, s := events + [e], Step(l, t, e.0, e.1);
    CurrentPush(events, e, ip);
    KeyFate(l, t, e.0, before, e.1, ip);
    if Current(more, ip) >= 0 { CrowdedStep(l, events, e, Current(more, ip)); }
    if ip in s.index {
      StepSound(l, events, t, e, before);
      NotCrowdedNow(l, more, s, ip);
    } else if ip in t.index && Current(more, ip) >= 0 {
      LostIsCrowded(l, events, t, e, ip);
    }
  }

  lemma {:induction false} OwnIsTold(events: seq<(Event, nat)>, t: Table, ip: string)
    requires Linked(t) && InOrder(events, t) && ip in t.index
    ensures NodeTold(events, NodeOf(t, ip))
  {
    Dereferenced(t, ip);
  }

  lemma {:induction false} TakenIsOwn(l: Limits, t: Table, e: (Event, nat), ip: string)
    requires Linked(t) && Bijective(t) && l.records >= 1 && ip in t.index && Taken(l, t, e.0, e.1, ip)
    ensures Takes(l, t, e.0, e.1, NodeOf(t, ip))
  {
    var n :| n in t.lru && n.ip == ip && Takes(l, t, e.0, e.1, n);
    OneNodeEach(t, ip, n);
  }

  lemma {:induction false} RunSized(l: Limits, events: seq<(Event, nat)>)
    requires l.records >= 1 && Monotone(events) && NoCleanup(events)
    ensures Sized(l, events, Run(l, events))
  {
    if events != [] {
      var front, e := events[..|events| - 1], events[|events| - 1];
      var t := Run(l, front);
      RunSized(l, front);
      RunBijective(l, front);
      RunInOrder(l, front);
      assert events == front + [e] && Run(l, events) == Step(l, t, e.0, e.1);
      forall ip ensures SizedAt(l, events, Run(l, events), ip) {
        assert SizedAt(l, front, t, ip);
        if e.0.Update? && e.0.ip == ip { OwnUpdateSized(l, front, t, e, LastTime(front)); }
        else { StepSized(l, front, t, e, LastTime(front), ip); }
      }
    }
  }

  /** After any run without cleanups, an address is answered with the tag of its latest update,
      exactly when nothing has invalidated that update, there have been fewer than `records`
      other live addresses at every moment since, and no more than `timeout` whole seconds have
      passed; otherwise with nothing. */
  lemma {:induction false} LiveHistory(l: Limits, events: seq<(Event, nat)>, ip: string, now: nat)
    requires l.records >= 1 && Monotone(events) && NoCleanup(events)
    ensures
      var n := Current(events, ip);
      Lookup(l, Run(l, events), ip, now)
      == if n >= 0 && !Crowded(l, events, n) && WholeSeconds(events[n].1, now) <= l.timeout
         then Some(events[n].0.tag) else None
  {
    RunSized(l, events);
    RunTold(l, events);
    assert SizedAt(l, events, Run(l, events), ip);
  }

  // ----- updates alone ---------------------------------------------------------------

  ghost predicate OnlyUpdates(events: seq<(Event, nat)>) {
    forall i :: 0 <= i < |events| ==> events[i].0.Update?
  }

  /** The last update of ip, or -1. */
  function Latest(events: seq<(Event, nat)>, ip: string): (n: int)
    requires OnlyUpdates(events)
    ensures -1 <= n < |events|
    ensures n >= 0 ==> events[n].0.ip == ip
    ensures forall i :: n < i < |events| ==> events[i].0.ip != ip
  {
    if events == [] then -1
    else if events[|events| - 1].0.ip == ip then |events| - 1
    else Latest(events[..|events| - 1], ip)
  }

  /** The addresses updated after event n. */
  function Since(events: seq<(Event, nat)>, n: int): set<string>
    requires OnlyUpdates(events) && n >= -1
  {
    set i | n < i < |events| :: events[i].0.ip
  }

  lemma {:induction false} LatestIsCurrent(events: seq<(Event, nat)>, ip: string)
    requires OnlyUpdates(events)
    ensures Current(events, ip) == Latest(events, ip)
  {
    if events != [] { LatestIsCurrent(events[..|events| - 1], ip); }
  }

  lemma {:induction false} SinceIsLive(events: seq<(Event, nat)>, n: nat)
    requires OnlyUpdates(events)
    ensures LiveSince(events, n) == Since(events, n)
  {
    forall a ensures a in Since(events, n) <==> a in LiveSince(events, n) {
      InLive(events, n, a);
      LatestIsCurrent(events, a);
      if a in Since(events, n) {
        var i :| n < i < |events| && events[i].0.ip == a;
      }
    }
  }

  lemma {:induction false} CrowdedSince(l: Limits, events: seq<(Event, nat)>, n: nat)
    requires OnlyUpdates(events) && n < |events|
    ensures Crowded(l, events, n) <==> |Since(events, n)| >= l.records
  {
    SinceIsLive(events, n);
    assert events[..|events|] == events;
    assert CrowdedAt(l, events, n, |events|) <==> |Since(events, n)| >= l.records;
    forall m: nat | n < m <= |events| && CrowdedAt(l, events, n, m) ensures |Since(events, n)| >= l.records {
      SinceIsLive(events[..m], n);
      Smaller(Since(events[..m], n), Since(events, n));
    }
  }

  lemma {:induction false} Smaller(a: set<string>, b: set<string>)
    requires a <= b
    ensures |a| <= |b|
  {
    assert b == a + (b - a);
  }

  /** After any run of updates, an address is answered with the tag of its latest update
      exactly when fewer than `records` other addresses were updated since, and no more than
      `timeout` whole seconds have passed; otherwise with nothing. */
  lemma {:induction false} LruIsHistory(l: Limits, events: seq<(Event, nat)>, ip: string, now: nat)
    requires l.records >= 1 && Monotone(events) && OnlyUpdates(events)
    ensures
      var n := Latest(events, ip);
      Lookup(l, Run(l, events), ip, now)
      == if n >= 0 && |Since(events, n)| < l.records && WholeSeconds(events[n].1, now) <= l.timeout
         then Some(events[n].0.tag) else None
  {
    LiveHistory(l, events, ip, now);
    LatestIsCurrent(events, ip);
    if Latest(events, ip) >= 0 { CrowdedSince(l, events, Latest(events, ip)); }
  }

  // ----- other clients ---------------------------------------------------------------

  /** Operations on behalf of others: no update or invalidation of ip, of its tag or of all. */
  predicate Foreign(events: seq<(Event, nat)>, ip: string, tag: string) {
    forall i :: 0 <= i < |events| ==>
      match events[i].0
      case Update(a, _) => a != ip
      case Invalidate(a) => a != ip
      case InvalidateNode(other) => other != tag
      case Cleanup => false
      case Clear => false
  }

  function UpdatedIn(events: seq<(Event, nat)>): set<string> {
    set i | 0 <= i < |events| && events[i].0.Update? :: events[i].0.ip
  }

  lemma {:induction false} ForeignKeeps(earlier: seq<(Event, nat)>, ip: string, tag: string, at: nat,
                                        others: seq<(Event, nat)>)
    requires Foreign(others, ip, tag)
    ensures Current(earlier + [(Update(ip, tag), at)] + others, ip) == |earlier|
  {
    var base := earlier + [(Update(ip, tag), at)];
    if others == [] {
      assert base + others == base;
      CurrentPush(earlier, (Update(ip, tag), at), ip);
    } else {
      var front, last := others[..|others| - 1], others[|others| - 1];
      ForeignKeeps(earlier, ip, tag, at, front);
      assert base + others == base + front + [last];
      CurrentPush(base + front, last, ip);
    }
  }

  lemma {:induction false} ForeignFits(l: Limits, earlier: seq<(Event, nat)>, ip: string, tag: string, at: nat,
                                       others: seq<(Event, nat)>)
    requires |UpdatedIn(others)| < l.records
    ensures !Crowded(l, earlier + [(Update(ip, tag), at)] + others, |earlier|)
  {
    var all, n := earlier + [(Update(ip, tag), at)] + others, |earlier|;
    forall m: nat | n < m <= |all| ensures !CrowdedAt(l, all, n, m) {
      forall a | a in LiveSince(all[..m], n) ensures a in UpdatedIn(others) {
        var i :| n < i < m && all[..m][i].0.Update? && all[..m][i].0.ip == a;
        assert others[i - n - 1] == all[i];
      }
      Smaller(LiveSince(all[..m], n), UpdatedIn(others));
    }
  }

  /** What was recorded for an address is what it is answered, exactly within the timeout, after
      whatever others do to the table while they update fewer than `records` addresses. */
  lemma {:induction false} Remembered(l: Limits, earlier: seq<(Event, nat)>, ip: string, tag: string, at: nat,
                                      others: seq<(Event, nat)>, now: nat)
    requires l.records >= 1 && NoCleanup(earlier) && Foreign(others, ip, tag) && |UpdatedIn(others)| < l.records
    requires Monotone(earlier + [(Update(ip, tag), at)] + others)
    ensures Lookup(l, Run(l, earlier + [(Update(ip, tag), at)] + others), ip, now)
         == if WholeSeconds(at, now) <= l.timeout then Some(tag) else None
  {
    var all := earlier + [(Update(ip, tag), at)] + others;
    ForeignKeeps(earlier, ip, tag, at, others);
    ForeignFits(l, earlier, ip, tag, at, others);
    LiveHistory(l, all, ip, now);
  }
}

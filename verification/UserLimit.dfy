/** When the admitter keeps the limit of connections per user. It is looked at when a request
    comes in, not when an entry leaves the queue. */
module UserLimit {
  import opened Clock
  import opened Admitter

  // ----- limits that keep it ---------------------------------------------------------

  predicate Timely(events: seq<(Event, nat)>) {
    forall i, j :: 0 <= i < j < |events| ==> events[i].1 <= events[j].1
  }

  function LastTime(events: seq<(Event, nat)>): nat {
    if events == [] then 0 else events[|events| - 1].1
  }

  /** The limit in force: a user's first connection is accepted whatever the limit. */
  function PerUser(l: Limits): nat { Max(1, l.perUser) }

  ghost predicate UserLimitKept(l: Limits, s: State) {
    forall u :: CountOf(s.users, u) <= PerUser(l)
  }

  lemma {:induction false} ShortQueueKeeps(l: Limits, events: seq<(Event, nat)>, u: string)
    requires l.queueSize <= 1
    ensures CountOf(Run(l, events).state.users, u) <= PerUser(l)
  {
    ClaimsBounded(l, events, u);
  }

  lemma DequeuedNone(l: Limits, s: State)
    requires s.queue == []
    ensures Dequeued(l, s) == s
  {
  }

  lemma {:induction false} NoQueueKeeps(l: Limits, events: seq<(Event, nat)>, u: string)
    requires !l.queueEnabled
    ensures Run(l, events).state.queue == []
    ensures CountOf(Run(l, events).state.users, u) <= PerUser(l)
  {
    if events != [] {
      var n := |events| - 1;
      var h, e := Run(l, events[..n]), events[n].0;
      NoQueueKeeps(l, events[..n], u);
      if e.Depart? { DequeuedNone(l, FreedSlot(h.state, e.user)); }
    }
  }

  lemma {:induction false} TotalAtLeast(users: map<string, int>, u: string)
    requires u in users && forall v :: v in users ==> users[v] >= 1
    ensures Total(users) >= users[u]
  {
    TotalWithout(users, u);
    if users - {u} != map[] {
      var v :| v in users - {u};
      TotalPositive(users - {u}, v);
    }
  }

  lemma {:induction false} FewSlotsKeep(l: Limits, events: seq<(Event, nat)>, u: string)
    requires ProperRun(l, events) && l.total <= PerUser(l)
    ensures CountOf(Run(l, events).state.users, u) <= PerUser(l)
  {
    var s := Run(l, events).state;
    NoIdleSlot(l, events);
    ActiveIsTotal(l, events);
    if u in s.users { TotalAtLeast(s.users, u); }
  }

  /** Without a waiting time, who waits has come after the last release, and holds less than the
      limit still. */
  ghost predicate WaitersBelow(l: Limits, s: State, now: nat) {
    && UserLimitKept(l, s)
    && forall i :: 0 <= i < |s.queue| ==>
         CountOf(s.users, s.queue[i].user) < PerUser(l) && s.queue[i].enqueued <= now
  }

  lemma {:induction false} AllExpired(l: Limits, queue: seq<Entry>, now: nat)
    requires l.timeout <= 0 && forall i :: 0 <= i < |queue| ==> queue[i].enqueued <= now
    ensures Waiting(l, queue, now) == []
  {
    if queue != [] { AllExpired(l, queue[..|queue| - 1], now); }
  }

  lemma LeftCount(users: map<string, int>, user: string, u: string)
    ensures CountOf(Left(users, user), u) <= Max(0, CountOf(users, u))
  {
  }

  lemma {:induction false} ReleaseBelow(l: Limits, s: State, user: string, now: nat)
    requires SlotsUsed(l, s) && WaitersBelow(l, s, now) && l.timeout <= 0
    ensures WaitersBelow(l, Released(l, s, user, now), now)
  {
    var f := FreedSlot(s, user);
    forall u ensures CountOf(f.users, u) <= Max(0, CountOf(s.users, u)) {
      LeftCount(s.users, user, u);
    }
    if s.queue != [] && f.active < l.total {
      DequeuedOnce(l, f);
      AllExpired(l, s.queue[1..], now);
      assert CountOf(s.users, s.queue[0].user) < PerUser(l);
      var t := FrontAdmitted(f);
      forall u ensures CountOf(t.users, u) <= PerUser(l) {
        assert CountOf(f.users, u) <= Max(0, CountOf(s.users, u)) && CountOf(s.users, u) <= PerUser(l);
      }
    } else {
      assert Dequeued(l, f) == f;
      AllExpired(l, s.queue, now);
      forall u ensures CountOf(f.users, u) <= PerUser(l) {
        assert CountOf(s.users, u) <= PerUser(l);
      }
    }
  }

  lemma {:induction false} DequeuedOnce(l: Limits, s: State)
    requires s.queue != [] && s.active + 1 == l.total
    ensures Dequeued(l, s) == FrontAdmitted(s)
  {
    var f := FrontAdmitted(s);
    assert Dequeued(l, s) == Dequeued(l, f);
  }

  lemma {:induction false} RequestBelow(l: Limits, s: State, r: Request, before: nat, now: nat)
    requires SlotsUsed(l, s) && WaitersBelow(l, s, before) && before <= now
    ensures WaitersBelow(l, Requested(l, s, r, now).0, now)
  {
    var t := Requested(l, s, r, now).0;
    forall u ensures CountOf(t.users, u) <= PerUser(l) {
      assert CountOf(s.users, u) <= PerUser(l);
    }
  }

  lemma {:induction false} NoTimeKeeps(l: Limits, events: seq<(Event, nat)>)
    requires Timely(events) && l.timeout <= 0
    ensures WaitersBelow(l, Run(l, events).state, LastTime(events))
  {
    if events != [] {
      var n := |events| - 1;
      var s, e, now := Run(l, events[..n]).state, events[n].0, events[n].1;
      NoTimeKeeps(l, events[..n]);
      NoIdleSlot(l, events[..n]);
      match e
      case Arrive(r) => RequestBelow(l, s, r, LastTime(events[..n]), now);
      case Depart(user) => ReleaseBelow(l, s, user, now);
    }
  }

  // ----- limits that do not ----------------------------------------------------------

  /** Users by number; number 0 is the one that gets too much. */
  function Name(k: nat): (s: string)
    ensures |s| == k
  {
    seq(k, _ => 'x')
  }

  function Ask(k: nat): Event { Arrive(Request("", "", Name(k), false, true, true, false)) }

  /** Users 1 to k hold one connection each, user 0 holds j, and waits for m more. */
  ghost predicate Holding(s: State, k: nat, j: nat, m: nat) {
    && s.active == k + j && |s.queue| == m
    && (forall i: nat :: 1 <= i <= k ==> Name(i) in s.users && s.users[Name(i)] == 1)
    && (forall i: nat :: i > k ==> Name(i) !in s.users)
    && CountOf(s.users, Name(0)) == j && (Name(0) in s.users <==> j > 0)
    && (forall i :: 0 <= i < m ==> s.queue[i].user == Name(0) && s.queue[i].enqueued == 0)
  }

  /** A proper run, all of it at one moment, to that state. */
  ghost predicate Builds(l: Limits, events: seq<(Event, nat)>, k: nat, j: nat, m: nat) {
    && ProperRun(l, events) && (forall i :: 0 <= i < |events| ==> events[i].1 == 0)
    && Holding(Run(l, events).state, k, j, m)
  }

  lemma {:induction false} OneMore(l: Limits, events: seq<(Event, nat)>, user: nat)
    requires ProperRun(l, events) && forall i :: 0 <= i < |events| ==> events[i].1 == 0
    ensures
      var more := events + [(Ask(user), 0)];
      && ProperRun(l, more) && (forall i :: 0 <= i < |more| ==> more[i].1 == 0)
      && Run(l, more).state == Requested(l, Run(l, events).state, Ask(user).request, 0).0
  {
    RunPush(l, events, Ask(user), 0);
  }

  lemma {:induction false} NamesDiffer(i: nat, k: nat)
    ensures Name(i) == Name(k) <==> i == k
  {
    assert |Name(i)| == i && |Name(k)| == k;
  }

  lemma {:induction false} OthersHold(l: Limits, k: nat) returns (events: seq<(Event, nat)>)
    requires k <= Max(0, l.total)
    ensures Builds(l, events, k, 0, 0)
  {
    if k == 0 {
      events := [];
    } else {
      var before := OthersHold(l, k - 1);
      OneMore(l, before, k);
      events := before + [(Ask(k), 0)];
      forall i: nat ensures Name(i) == Name(k) <==> i == k { NamesDiffer(i, k); }
      AskedFirst(l, Run(l, before).state, k);
    }
  }

  lemma {:induction false} AskedFirst(l: Limits, s: State, k: nat)
    requires k >= 1 && k <= l.total && Holding(s, k - 1, 0, 0)
    requires forall i: nat :: Name(i) == Name(k) <==> i == k
    ensures Holding(Requested(l, s, Ask(k).request, 0).0, k, 0, 0)
  {
    assert Name(k) !in s.users;
    var t := s.(active := s.active + 1, users := s.users[Name(k) := 1]);
    assert Requested(l, s, Ask(k).request, 0).0 == t;
    assert Name(0) != Name(k);
  }

  lemma {:induction false} UserHolds(l: Limits, k: nat, j: nat) returns (events: seq<(Event, nat)>)
    requires k + j <= Max(0, l.total) && j < PerUser(l)
    ensures Builds(l, events, k, j, 0)
  {
    if j == 0 {
      events := OthersHold(l, k);
    } else {
      var before := UserHolds(l, k, j - 1);
      OneMore(l, before, 0);
      events := before + [(Ask(0), 0)];
      forall i: nat ensures Name(i) == Name(0) <==> i == 0 { NamesDiffer(i, 0); }
    }
  }

  lemma {:induction false} UserWaits(l: Limits, k: nat, j: nat, m: nat) returns (events: seq<(Event, nat)>)
    requires k + j == Max(0, l.total) && j < PerUser(l) && l.queueEnabled && m <= Max(0, l.queueSize)
    ensures Builds(l, events, k, j, m)
  {
    if m == 0 {
      events := UserHolds(l, k, j);
    } else {
      var before := UserWaits(l, k, j, m - 1);
      OneMore(l, before, 0);
      events := before + [(Ask(0), 0)];
      AskedToWait(l, Run(l, before).state, k, j, m);
    }
  }

  lemma {:induction false} AskedToWait(l: Limits, s: State, k: nat, j: nat, m: nat)
    requires k + j == Max(0, l.total) && j < PerUser(l) && l.queueEnabled && 1 <= m <= l.queueSize
    requires Holding(s, k, j, m - 1)
    ensures Holding(Requested(l, s, Ask(0).request, 0).0, k, j, m)
  {
    var e := Entry(s.arrivals, "", Name(0), "", 0, false);
    assert Requested(l, s, Ask(0).request, 0).0
        == s.(queue := s.queue + [e], arrivals := s.arrivals + 1);
  }

  /** The bound on what a user holds and waits for is reached by every user limit and queue that
      the slots suffice for. */
  lemma {:induction false} ClaimsAttained(l: Limits)
    requires l.queueEnabled && l.queueSize >= 1 && Max(0, l.total) >= PerUser(l) - 1
    ensures exists events: seq<(Event, nat)>, u ::
      ProperRun(l, events) && Claims(Run(l, events).state, u) == MostClaims(l)
  {
    var j := PerUser(l) - 1;
    var events := UserWaits(l, Max(0, l.total) - j, j, l.queueSize);
    AllQueuedBy(Run(l, events).state.queue, Name(0));
    assert ProperRun(l, events) && Claims(Run(l, events).state, Name(0)) == MostClaims(l);
  }

  lemma {:induction false} AllQueuedBy(queue: seq<Entry>, u: string)
    requires forall i :: 0 <= i < |queue| ==> queue[i].user == u
    ensures QueuedBy(queue, u) == |queue|
  {
    if queue != [] { AllQueuedBy(queue[1..], u); }
  }

  /** All slots are taken, nobody who waits has timed out, and the first of them is user 0. */
  ghost predicate NextIsUser(l: Limits, s: State) {
    && s.active == l.total > 0 && s.queue != [] && s.queue[0].user == Name(0)
    && forall i :: 0 <= i < |s.queue| ==> !TimedOut(l, s.queue[i], 0)
  }

  lemma {:induction false} OneLeaves(l: Limits, h: History, name: string) returns (t: State)
    requires NextIsUser(l, h.state) && name in h.state.users && h.state.users[name] == 1 && name != Name(0)
    ensures t == Step(l, h, Depart(name), 0).state
    ensures t.active == l.total && t.queue == h.state.queue[1..]
    ensures CountOf(t.users, Name(0)) == CountOf(h.state.users, Name(0)) + 1
    ensures forall other :: other != name && other != Name(0) && other in h.state.users ==>
      other in t.users && t.users[other] == h.state.users[other]
  {
    HandedOn(l, h, name, 0);
    t := Step(l, h, Depart(name), 0).state;
  }

  lemma {:induction false} LeaveProper(l: Limits, events: seq<(Event, nat)>, name: string)
    requires ProperRun(l, events) && name in Run(l, events).state.users
    requires forall i :: 0 <= i < |events| ==> events[i].1 == 0
    ensures
      var more := events + [(Depart(name), 0)];
      && ProperRun(l, more) && (forall i :: 0 <= i < |more| ==> more[i].1 == 0)
      && Run(l, more) == Step(l, Run(l, events), Depart(name), 0)
  {
    RunPush(l, events, Depart(name), 0);
  }

  lemma {:induction false} TwoLeave(l: Limits, events: seq<(Event, nat)>, k: nat, j: nat)
    returns (more: seq<(Event, nat)>)
    requires Builds(l, events, k, j, 2) && k >= 2 && k + j == l.total && l.timeout >= 1
    ensures ProperRun(l, more) && Timely(more) && CountOf(Run(l, more).state.users, Name(0)) == j + 2
  {
    NamesDiffer(1, 2);
    NamesDiffer(1, 0);
    NamesDiffer(2, 0);
    var h := Run(l, events);
    assert Name(1) in h.state.users && Name(2) in h.state.users;
    var t := OneLeaves(l, h, Name(1));
    LeaveProper(l, events, Name(1));
    more := events + [(Depart(Name(1)), 0)];
    h := Run(l, more);
    t := OneLeaves(l, h, Name(2));
    LeaveProper(l, more, Name(2));
    more := more + [(Depart(Name(2)), 0)];
  }

  /** Limits under which two requests of a user can wait while others leave their slots to it. */
  predicate Overrunnable(l: Limits) {
    l.queueEnabled && l.queueSize >= 2 && l.timeout >= 1 && l.total > PerUser(l)
  }

  ghost predicate Overruns(l: Limits, events: seq<(Event, nat)>) {
    ProperRun(l, events) && Timely(events) && !UserLimitKept(l, Run(l, events).state)
  }

  /** A user can be given more connections than the limit exactly when two requests fit in the
      queue, have time to wait there, and there are more slots than the limit. */
  lemma {:induction false} UserLimitOverrun(l: Limits)
    ensures (exists events: seq<(Event, nat)> :: Overruns(l, events)) <==> Overrunnable(l)
  {
    if Overrunnable(l) {
      var j := PerUser(l) - 1;
      var events := UserWaits(l, l.total - j, j, 2);
      var more := TwoLeave(l, events, l.total - j, j);
      assert Overruns(l, more);
    } else {
      forall events: seq<(Event, nat)> | ProperRun(l, events) && Timely(events)
        ensures UserLimitKept(l, Run(l, events).state)
      {
        KeptOtherwise(l, events);
      }
    }
  }

  lemma {:induction false} KeptOtherwise(l: Limits, events: seq<(Event, nat)>)
    requires ProperRun(l, events) && Timely(events) && !Overrunnable(l)
    ensures UserLimitKept(l, Run(l, events).state)
  {
    if l.timeout <= 0 { NoTimeKeeps(l, events); }
    forall u ensures l.timeout >= 1 ==> CountOf(Run(l, events).state.users, u) <= PerUser(l) {
      if !l.queueEnabled { NoQueueKeeps(l, events, u); }
      else if l.queueSize <= 1 { ShortQueueKeeps(l, events, u); }
      else if l.total <= PerUser(l) { FewSlotsKeep(l, events, u); }
    }
  }
}

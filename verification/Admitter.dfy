/** Connection admission: a counter of active connections, a count per user, and a queue in
    which reconnecting clients go before the others. Calls are atomic here; AdmitterThreads
    looks at their interleavings. */
module Admitter {
  import opened Clock

  datatype Limits = Limits(total: int, perUser: int, queueEnabled: bool, queueSize: int, timeout: int)

  /** `arrival` numbers the queued requests in the order in which they came. */
  datatype Entry = Entry(arrival: nat, session: string, user: string, ip: string,
                         enqueued: nat, reconnect: bool)

  datatype State = State(active: int, users: map<string, int>, queue: seq<Entry>, arrivals: nat)

  datatype Reason = RateLimited | Banned | Overloaded | UserLimit | TotalLimit | QueueFull

  datatype Response = Accepted | Queued(position: nat) | Rejected(reason: Reason)

  /** A request, with what the rate limiter and the overload protector answer to it. */
  datatype Request = Request(session: string, ip: string, user: string, reconnect: bool,
                             rateOk: bool, authOk: bool, overloaded: bool)

  // ----- what the calls compute ------------------------------------------------------

  function CountOf(users: map<string, int>, user: string): int {
    if user in users then users[user] else 0
  }

  function Joined(users: map<string, int>, user: string): map<string, int> {
    users[user := CountOf(users, user) + 1]
  }

  function Left(users: map<string, int>, user: string): map<string, int> {
    if user !in users then users
    else if users[user] - 1 <= 0 then users - {user}
    else users[user := users[user] - 1]
  }

  /** How many reconnects stand at the front. */
  function Reconnects(queue: seq<Entry>): (n: nat)
    ensures n <= |queue|
    ensures forall i :: 0 <= i < n ==> queue[i].reconnect
    ensures n < |queue| ==> !queue[n].reconnect
  {
    if queue == [] || !queue[0].reconnect then 0 else 1 + Reconnects(queue[1..])
  }

  function Enqueued(queue: seq<Entry>, e: Entry): seq<Entry> {
    if e.reconnect then queue[..Reconnects(queue)] + [e] + queue[Reconnects(queue)..]
    else queue + [e]
  }

  function Requested(l: Limits, s: State, r: Request, now: nat): (State, Response) {
    if !r.rateOk then (s, Rejected(RateLimited))
    else if !r.authOk then (s, Rejected(Banned))
    else if r.overloaded then (s, Rejected(Overloaded))
    else if r.user in s.users && s.users[r.user] >= l.perUser then (s, Rejected(UserLimit))
    else if s.active >= l.total then
      if !l.queueEnabled then (s, Rejected(TotalLimit))
      else if |s.queue| >= l.queueSize then (s, Rejected(QueueFull))
      else
        var e := Entry(s.arrivals, r.session, r.user, r.ip, now, r.reconnect);
        (s.(queue := Enqueued(s.queue, e), arrivals := s.arrivals + 1), Queued(|s.queue| + 1))
    else
      (s.(active := s.active + 1, users := Joined(s.users, r.user)), Accepted)
  }

  /** The state with the first entry of the queue admitted. */
  function FrontAdmitted(s: State): State
    requires s.queue != []
  {
    s.(active := s.active + 1, users := Joined(s.users, s.queue[0].user), queue := s.queue[1..])
  }

  /** Entries are taken from the front of the queue while there is a free slot. */
  function Dequeued(l: Limits, s: State): (t: State)
    ensures |t.queue| <= |s.queue|
    decreases |s.queue|
  {
    if s.queue != [] && s.active < l.total then Dequeued(l, FrontAdmitted(s)) else s
  }

  /** What is left is the back of the queue. */
  lemma {:induction false} DequeuedSuffix(l: Limits, s: State)
    ensures Dequeued(l, s).queue == s.queue[|s.queue| - |Dequeued(l, s).queue|..]
    decreases |s.queue|
  {
    if s.queue != [] && s.active < l.total { DequeuedSuffix(l, FrontAdmitted(s)); }
  }

  predicate TimedOut(l: Limits, e: Entry, now: nat) {
    WholeSeconds(e.enqueued, now) >= l.timeout
  }

  function Waiting(l: Limits, queue: seq<Entry>, now: nat): seq<Entry> {
    if queue == [] then []
    else
      var rest, last := Waiting(l, queue[..|queue| - 1], now), queue[|queue| - 1];
      if TimedOut(l, last, now) then rest else rest + [last]
  }

  function Expired(l: Limits, queue: seq<Entry>, now: nat): seq<Entry> {
    if queue == [] then []
    else
      var rest, last := Expired(l, queue[..|queue| - 1], now), queue[|queue| - 1];
      if TimedOut(l, last, now) then rest + [last] else rest
  }

  function FreedSlot(s: State, user: string): State {
    s.(active := if s.active > 0 then s.active - 1 else s.active, users := Left(s.users, user))
  }

  function Released(l: Limits, s: State, user: string, now: nat): State {
    var t := Dequeued(l, FreedSlot(s, user));
    t.(queue := Waiting(l, t.queue, now))
  }

  // ----- the admitter ----------------------------------------------------------------

  class ConnectionAdmitter {
    const limits: Limits
    var active: int
    var users: map<string, int>
    var queue: seq<Entry>
    var arrivals: nat

    ghost function Now(): State
      reads this
    {
      State(active, users, queue, arrivals)
    }

    constructor (limits: Limits)
      ensures Now() == State(0, map[], [], 0) && this.limits == limits
    {
      this.limits := limits;
      active, users, queue, arrivals := 0, map[], [], 0;
    }

    method RequestAdmit(r: Request, now: nat) returns (response: Response)
      modifies this
      ensures (Now(), response) == Requested(limits, old(Now()), r, now)
    {
      if !r.rateOk { return Rejected(RateLimited); }
      if !r.authOk { return Rejected(Banned); }
      if r.overloaded { return Rejected(Overloaded); }
      if r.user in users && users[r.user] >= limits.perUser { return Rejected(UserLimit); }

      if active >= limits.total {
        if !limits.queueEnabled { return Rejected(TotalLimit); }
        if |queue| >= limits.queueSize { return Rejected(QueueFull); }
        var e := Entry(arrivals, r.session, r.user, r.ip, now, r.reconnect);
        arrivals := arrivals + 1;
        if r.reconnect {
          var at := 0;
          while at < |queue| && queue[at].reconnect
            invariant at <= |queue|
            invariant forall i :: 0 <= i < at ==> queue[i].reconnect
          {
            at := at + 1;
          }
          ReconnectsAre(queue, at);
          queue := queue[..at] + [e] + queue[at..];
        } else {
          queue := queue + [e];
        }
        return Queued(|queue|);
      }

      active := active + 1;
      users := users[r.user := CountOf(users, r.user) + 1];
      return Accepted;
    }

    /** The admitted and the timed-out entries are those whose callbacks run, in that order. */
    method ReleaseConnection(user: string, now: nat) returns (admitted: seq<Entry>, timedOut: seq<Entry>)
      modifies this
      ensures Now() == Released(limits, old(Now()), user, now)
      ensures var s := FreedSlot(old(Now()), user);
              var t := Dequeued(limits, s);
              s.queue == admitted + t.queue && timedOut == Expired(limits, t.queue, now)
    {
      if active > 0 { active := active - 1; }
      if user in users {
        users := users[user := users[user] - 1];
        if users[user] <= 0 { users := users - {user}; }
      }
      assert Now() == FreedSlot(old(Now()), user);
      admitted := DequeueConnections();
      timedOut := CheckQueueTimeouts(now);
    }

    method DequeueConnections() returns (admitted: seq<Entry>)
      modifies this
      ensures Now() == Dequeued(limits, old(Now()))
      ensures old(queue) == admitted + queue
    {
      admitted := [];
      ghost var s, all := Now(), queue;
      ghost var goal := Dequeued(limits, s);
      while queue != [] && active < limits.total
        invariant s == State(active, users, queue, arrivals) && Dequeued(limits, s) == goal
        invariant |admitted| <= |all| && admitted == all[..|admitted|] && queue == all[|admitted|..]
        decreases |queue|
      {
        var front := queue[0];
        queue := queue[1..];
        active := active + 1;
        users := users[front.user := CountOf(users, front.user) + 1];
        admitted := admitted + [front];
        s := FrontAdmitted(s);
      }
      assert all == admitted + queue;
    }

    method CheckQueueTimeouts(now: nat) returns (timedOut: seq<Entry>)
      modifies this
      ensures Now() == old(Now()).(queue := Waiting(limits, old(queue), now))
      ensures timedOut == Expired(limits, old(queue), now)
    {
      timedOut := [];
      var i := 0;
      ghost var all, seen := queue, 0;
      while i < |queue|
        invariant i <= |queue| && seen <= |all|
        invariant queue[i..] == all[seen..]
        invariant queue[..i] == Waiting(limits, all[..seen], now)
        invariant timedOut == Expired(limits, all[..seen], now)
        invariant active == old(active) && users == old(users) && arrivals == old(arrivals)
        decreases |queue| - i
      {
        ghost var before := queue;
        assert all[..seen + 1][..seen] == all[..seen];
        assert queue[i] == queue[i..][0] == all[seen];
        if WholeSeconds(queue[i].enqueued, now) >= limits.timeout {
          timedOut := timedOut + [queue[i]];
          queue := queue[..i] + queue[i + 1..];
          assert queue[..i] == before[..i] && queue[i..] == before[i..][1..];
        } else {
          i := i + 1;
          assert queue[..i] == before[..i - 1] + [all[seen]] && queue[i..] == before[i - 1..][1..];
        }
        seen := seen + 1;
      }
      assert all[..seen] == all && queue[..i] == queue;
    }
  }

  lemma {:induction false} ReconnectsAre(queue: seq<Entry>, n: nat)
    requires n <= |queue| && forall i :: 0 <= i < n ==> queue[i].reconnect
    requires n < |queue| ==> !queue[n].reconnect
    ensures Reconnects(queue) == n
  {
    if n > 0 { ReconnectsAre(queue[1..], n - 1); }
  }

  // ----- runs ------------------------------------------------------------------------

  datatype Event = Arrive(request: Request) | Depart(user: string)

  /** The state after a run, with the entries that have left the queue. */
  datatype History = History(state: State, admitted: seq<Entry>, expired: seq<Entry>)

  function Step(l: Limits, h: History, e: Event, now: nat): History {
    match e
    case Arrive(r) => h.(state := Requested(l, h.state, r, now).0)
    case Depart(user) =>
      var s := FreedSlot(h.state, user);
      var t := Dequeued(l, s);
      History(t.(queue := Waiting(l, t.queue, now)),
        h.admitted + s.queue[..|s.queue| - |t.queue|],
        h.expired + Expired(l, t.queue, now))
  }

  ghost function Run(l: Limits, events: seq<(Event, nat)>): History {
    if events == [] then History(State(0, map[], [], 0), [], [])
    else
      var n := |events| - 1;
      Step(l, Run(l, events[..n]), events[n].0, events[n].1)
  }

  /** Every release names a user who holds a connection at that moment. */
  ghost predicate ProperRun(l: Limits, events: seq<(Event, nat)>) {
    events == []
    || (var n := |events| - 1;
        ProperRun(l, events[..n])
        && (events[n].0.Depart? ==> events[n].0.user in Run(l, events[..n]).state.users))
  }

  // ----- slots -----------------------------------------------------------------------

  function Max(a: int, b: int): int { if a >= b then a else b }

  /** No slot is over-committed, and none is idle while somebody waits. */
  ghost predicate SlotsUsed(l: Limits, s: State) {
    && 0 <= s.active <= Max(0, l.total)
    && (s.queue != [] ==> s.active >= l.total)
    && |s.queue| <= Max(0, l.queueSize)
  }

  lemma {:induction false} DequeuedSlots(l: Limits, s: State)
    requires 0 <= s.active <= Max(0, l.total) && |s.queue| <= Max(0, l.queueSize)
    ensures SlotsUsed(l, Dequeued(l, s))
    decreases |s.queue|
  {
    if s.queue != [] && s.active < l.total {
      DequeuedSlots(l, FrontAdmitted(s));
    }
  }

  lemma {:induction false} WaitingLength(l: Limits, queue: seq<Entry>, now: nat)
    ensures |Waiting(l, queue, now)| <= |queue|
  {
    if queue != [] { WaitingLength(l, queue[..|queue| - 1], now); }
  }

  /** Between calls, whatever the run (even with releases nobody is entitled to). */
  lemma {:induction false} NoIdleSlot(l: Limits, events: seq<(Event, nat)>)
    ensures SlotsUsed(l, Run(l, events).state)
  {
    if events != [] {
      var n := |events| - 1;
      var h, e, now := Run(l, events[..n]), events[n].0, events[n].1;
      NoIdleSlot(l, events[..n]);
      if e.Depart? {
        var s := FreedSlot(h.state, e.user);
        DequeuedSlots(l, s);
        WaitingLength(l, Dequeued(l, s).queue, now);
      }
    }
  }

  /** The direct path never looks at the queue; it is taken only when nobody waits. */
  lemma {:induction false} NoOvertaking(l: Limits, events: seq<(Event, nat)>, r: Request, now: nat)
    requires Requested(l, Run(l, events).state, r, now).1 == Accepted
    ensures Run(l, events).state.queue == []
    ensures Run(l, events).state.active < l.total
  {
    NoIdleSlot(l, events);
  }

  // ----- queue order -----------------------------------------------------------------

  /** Reconnects before the others, and each class in the order of arrival. */
  predicate Precedes(a: Entry, b: Entry) {
    && (b.reconnect ==> a.reconnect)
    && (a.reconnect == b.reconnect ==> a.arrival < b.arrival)
  }

  ghost predicate Ordered(queue: seq<Entry>) {
    forall i, j :: 0 <= i < j < |queue| ==> Precedes(queue[i], queue[j])
  }

  ghost predicate Numbered(s: State) {
    forall i :: 0 <= i < |s.queue| ==> s.queue[i].arrival < s.arrivals
  }

  lemma {:induction false} EnqueuedOrdered(s: State, e: Entry)
    requires Ordered(s.queue) && Numbered(s) && e.arrival == s.arrivals
    ensures Ordered(Enqueued(s.queue, e))
    ensures Numbered(s.(queue := Enqueued(s.queue, e), arrivals := s.arrivals + 1))
  {
    var n := Reconnects(s.queue);
    forall i | n <= i < |s.queue| ensures !s.queue[i].reconnect {
      assert i > n ==> Precedes(s.queue[n], s.queue[i]);
    }
  }

  lemma {:induction false} DequeuedArrivals(l: Limits, s: State)
    ensures Dequeued(l, s).arrivals == s.arrivals
    decreases |s.queue|
  {
    if s.queue != [] && s.active < l.total {
      DequeuedArrivals(l, FrontAdmitted(s));
    }
  }

  lemma {:induction false} WaitingOrdered(l: Limits, queue: seq<Entry>, now: nat)
    requires Ordered(queue)
    ensures Ordered(Waiting(l, queue, now))
    ensures forall e :: e in Waiting(l, queue, now) ==> e in queue
  {
    if queue != [] {
      var rest := Waiting(l, queue[..|queue| - 1], now);
      WaitingOrdered(l, queue[..|queue| - 1], now);
      forall i | 0 <= i < |rest| ensures Precedes(rest[i], queue[|queue| - 1]) {
        assert rest[i] in rest;
      }
    }
  }

  lemma {:induction false} StepOrdered(l: Limits, h: History, e: Event, now: nat)
    requires Ordered(h.state.queue) && Numbered(h.state)
    ensures Ordered(Step(l, h, e, now).state.queue) && Numbered(Step(l, h, e, now).state)
  {
    match e
    case Arrive(r) =>
      EnqueuedOrdered(h.state, Entry(h.state.arrivals, r.session, r.user, r.ip, now, r.reconnect));
    case Depart(user) =>
      var s := FreedSlot(h.state, user);
      var t := Dequeued(l, s);
      DequeuedArrivals(l, s);
      DequeuedSuffix(l, s);
      WaitingOrdered(l, t.queue, now);
      var w := Waiting(l, t.queue, now);
      forall i | 0 <= i < |w| ensures w[i].arrival < s.arrivals {
        assert w[i] in w;
      }
  }

  /** The queue is always the waiting reconnects in arrival order, then the rest in arrival
      order. */
  lemma {:induction false} QueueOrdered(l: Limits, events: seq<(Event, nat)>)
    ensures Ordered(Run(l, events).state.queue) && Numbered(Run(l, events).state)
  {
    if events != [] {
      var n := |events| - 1;
      QueueOrdered(l, events[..n]);
      StepOrdered(l, Run(l, events[..n]), events[n].0, events[n].1);
    }
  }

  // ----- conservation ----------------------------------------------------------------

  /** How many of the entries carry number k. */
  function Tally(queue: seq<Entry>, k: nat): nat {
    if queue == [] then 0
    else Tally(queue[..|queue| - 1], k) + if queue[|queue| - 1].arrival == k then 1 else 0
  }

  /** How often number k occurs among the waiting, the admitted and the timed-out entries. */
  function Fates(h: History, k: nat): nat {
    Tally(h.state.queue, k) + Tally(h.admitted, k) + Tally(h.expired, k)
  }

  lemma {:induction false} TallyConcat(a: seq<Entry>, b: seq<Entry>, k: nat)
    ensures Tally(a + b, k) == Tally(a, k) + Tally(b, k)
  {
    if b == [] {
      assert a + b == a;
    } else {
      TallyConcat(a, b[..|b| - 1], k);
      assert (a + b)[..|a + b| - 1] == a + b[..|b| - 1];
    }
  }

  lemma {:induction false} TallySplit(l: Limits, queue: seq<Entry>, now: nat, k: nat)
    ensures Tally(queue, k) == Tally(Waiting(l, queue, now), k) + Tally(Expired(l, queue, now), k)
  {
    if queue != [] {
      var front, last := queue[..|queue| - 1], queue[|queue| - 1];
      TallySplit(l, front, now, k);
      TallyConcat(Waiting(l, front, now), [last], k);
      TallyConcat(Expired(l, front, now), [last], k);
    }
  }

  lemma {:induction false} EnqueuedTally(queue: seq<Entry>, e: Entry, k: nat)
    ensures Tally(Enqueued(queue, e), k) == Tally(queue, k) + if e.arrival == k then 1 else 0
  {
    var n := Reconnects(queue);
    TallyConcat(queue, [e], k);
    TallyConcat(queue[..n], [e], k);
    TallyConcat(queue[..n] + [e], queue[n..], k);
    TallyConcat(queue[..n], queue[n..], k);
    assert queue == queue[..n] + queue[n..];
  }

  lemma {:induction false} ReleaseFates(l: Limits, h: History, user: string, now: nat, k: nat)
    ensures Fates(Step(l, h, Depart(user), now), k) == Fates(h, k)
    ensures Step(l, h, Depart(user), now).state.arrivals == h.state.arrivals
  {
    var s := FreedSlot(h.state, user);
    var t := Dequeued(l, s);
    var taken := s.queue[..|s.queue| - |t.queue|];
    DequeuedArrivals(l, s);
    DequeuedSuffix(l, s);
    assert h.state.queue == taken + t.queue;
    TallyConcat(taken, t.queue, k);
    TallyConcat(h.admitted, taken, k);
    TallyConcat(h.expired, Expired(l, t.queue, now), k);
    TallySplit(l, t.queue, now, k);
  }

  lemma {:induction false} ArriveFates(l: Limits, h: History, r: Request, now: nat, k: nat)
    ensures
      var s := Requested(l, h.state, r, now).0;
      && h.state.arrivals <= s.arrivals
      && Tally(s.queue, k) == Tally(h.state.queue, k) + if h.state.arrivals <= k < s.arrivals then 1 else 0
  {
    var e := Entry(h.state.arrivals, r.session, r.user, r.ip, now, r.reconnect);
    EnqueuedTally(h.state.queue, e, k);
    RequestQueues(l, h.state, r, now, e);
  }

  lemma RequestQueues(l: Limits, s: State, r: Request, now: nat, e: Entry)
    requires e == Entry(s.arrivals, r.session, r.user, r.ip, now, r.reconnect)
    ensures
      var t := Requested(l, s, r, now).0;
      || (t.queue == s.queue && t.arrivals == s.arrivals)
      || (t.queue == Enqueued(s.queue, e) && t.arrivals == s.arrivals + 1)
  {
  }

  lemma {:induction false} StepFates(l: Limits, h: History, e: Event, now: nat, k: nat)
    ensures h.state.arrivals <= Step(l, h, e, now).state.arrivals
    ensures Fates(Step(l, h, e, now), k)
         == Fates(h, k) + if h.state.arrivals <= k < Step(l, h, e, now).state.arrivals then 1 else 0
  {
    match e
    case Arrive(r) => ArriveFates(l, h, r, now, k);
    case Depart(user) => ReleaseFates(l, h, user, now, k);
  }

  /** Each entry that was ever queued is still waiting or has met exactly one of admission and
      timeout; no number is used twice or made up. */
  lemma {:induction false} OneFateEach(l: Limits, events: seq<(Event, nat)>, k: nat)
    ensures Fates(Run(l, events), k) == if k < Run(l, events).state.arrivals then 1 else 0
  {
    if events != [] {
      var n := |events| - 1;
      OneFateEach(l, events[..n], k);
      StepFates(l, Run(l, events[..n]), events[n].0, events[n].1, k);
    }
  }

  // ----- counts ----------------------------------------------------------------------

  ghost function Total(users: map<string, int>): int {
    if users == map[] then 0 else var u :| u in users; users[u] + Total(users - {u})
  }

  lemma {:induction false} TotalWithout(users: map<string, int>, u: string)
    requires u in users
    ensures Total(users) == users[u] + Total(users - {u})
    decreases |users|
  {
    var v :| v in users && Total(users) == users[v] + Total(users - {v});
    if v != u {
      TotalWithout(users - {v}, u);
      TotalWithout(users - {u}, v);
      assert users - {v} - {u} == users - {u} - {v};
    }
  }

  lemma {:induction false} TotalUpdate(users: map<string, int>, u: string, n: int)
    ensures Total(users[u := n]) == Total(users) - CountOf(users, u) + n
  {
    TotalWithout(users[u := n], u);
    if u in users {
      TotalWithout(users, u);
      assert users[u := n] - {u} == users - {u};
    } else {
      assert users[u := n] - {u} == users;
    }
  }

  ghost predicate Counted(s: State) {
    && s.active == Total(s.users)
    && forall u :: u in s.users ==> s.users[u] >= 1
  }

  lemma {:induction false} TotalPositive(users: map<string, int>, u: string)
    requires u in users && forall v :: v in users ==> users[v] >= 1
    ensures Total(users) >= 1
    decreases |users|
  {
    TotalWithout(users, u);
    if v :| v in users - {u} {
      TotalPositive(users - {u}, v);
    } else {
      assert users - {u} == map[];
    }
  }

  lemma {:induction false} DequeuedCounted(l: Limits, s: State)
    requires Counted(s)
    ensures Counted(Dequeued(l, s))
    decreases |s.queue|
  {
    if s.queue != [] && s.active < l.total {
      var u := s.queue[0].user;
      TotalUpdate(s.users, u, CountOf(s.users, u) + 1);
      DequeuedCounted(l, FrontAdmitted(s));
    }
  }

  /** The counter is the sum of the users' counts, as long as releases are proper. */
  lemma {:induction false} ActiveIsTotal(l: Limits, events: seq<(Event, nat)>)
    requires ProperRun(l, events)
    ensures Counted(Run(l, events).state)
  {
    if events != [] {
      var n := |events| - 1;
      var h, e := Run(l, events[..n]), events[n].0;
      ActiveIsTotal(l, events[..n]);
      match e
      case Arrive(r) =>
        TotalUpdate(h.state.users, r.user, CountOf(h.state.users, r.user) + 1);
      case Depart(u) =>
        TotalPositive(h.state.users, u);
        TotalWithout(h.state.users, u);
        TotalUpdate(h.state.users, u, h.state.users[u] - 1);
        DequeuedCounted(l, FreedSlot(h.state, u));
    }
  }

  // ----- the per-user limit ----------------------------------------------------------

  function QueuedBy(queue: seq<Entry>, u: string): (n: nat)
    ensures n <= |queue|
  {
    if queue == [] then 0
    else QueuedBy(queue[1..], u) + if queue[0].user == u then 1 else 0
  }

  function Claims(s: State, u: string): int { CountOf(s.users, u) + QueuedBy(s.queue, u) }

  lemma {:induction false} QueuedByConcat(a: seq<Entry>, b: seq<Entry>, u: string)
    ensures QueuedBy(a + b, u) == QueuedBy(a, u) + QueuedBy(b, u)
  {
    if a == [] {
      assert a + b == b;
    } else {
      QueuedByConcat(a[1..], b, u);
      assert (a + b)[1..] == a[1..] + b;
    }
  }

  lemma FrontClaims(s: State, u: string)
    requires s.queue != []
    ensures Claims(FrontAdmitted(s), u) == Claims(s, u)
  {
  }

  lemma {:induction false} DequeuedClaims(l: Limits, s: State, u: string)
    ensures Claims(Dequeued(l, s), u) == Claims(s, u)
    decreases |s.queue|
  {
    if s.queue != [] && s.active < l.total {
      FrontClaims(s, u);
      DequeuedClaims(l, FrontAdmitted(s), u);
    }
  }

  lemma {:induction false} WaitingClaims(l: Limits, queue: seq<Entry>, now: nat, u: string)
    ensures QueuedBy(Waiting(l, queue, now), u) <= QueuedBy(queue, u)
  {
    if queue != [] {
      var front, last := queue[..|queue| - 1], queue[|queue| - 1];
      WaitingClaims(l, front, now, u);
      QueuedByConcat(front, [last], u);
      QueuedByConcat(Waiting(l, front, now), [last], u);
      assert queue == front + [last];
    }
  }

  /** What a user can hold and wait for at the most: the user limit, and but for one place the
      whole queue. */
  function MostClaims(l: Limits): int { Max(1, l.perUser) + Max(0, l.queueSize - 1) }

  lemma {:induction false} RequestClaims(l: Limits, s: State, r: Request, now: nat, u: string)
    requires SlotsUsed(l, s) && Claims(s, u) <= MostClaims(l)
    ensures Claims(Requested(l, s, r, now).0, u) <= MostClaims(l)
  {
    EnqueuedClaims(s.queue, Entry(s.arrivals, r.session, r.user, r.ip, now, r.reconnect), u);
  }

  lemma {:induction false} ReleaseClaims(l: Limits, s: State, user: string, now: nat, u: string)
    ensures Claims(Released(l, s, user, now), u) <= Max(QueuedBy(s.queue, u), Claims(s, u))
  {
    var f := FreedSlot(s, user);
    DequeuedClaims(l, f, u);
    WaitingClaims(l, Dequeued(l, f).queue, now, u);
  }

  /** The user limit is not looked at again when an entry leaves the queue, so it bounds what a
      user holds and waits for together only with the queue's size. */
  lemma {:induction false} ClaimsBounded(l: Limits, events: seq<(Event, nat)>, u: string)
    ensures Claims(Run(l, events).state, u) <= MostClaims(l)
  {
    if events != [] {
      var n := |events| - 1;
      ClaimsBounded(l, events[..n], u);
      NoIdleSlot(l, events[..n]);
      match events[n].0
      case Arrive(r) => RequestClaims(l, Run(l, events[..n]).state, r, events[n].1, u);
      case Depart(user) => ReleaseClaims(l, Run(l, events[..n]).state, user, events[n].1, u);
    }
  }

  lemma {:induction false} EnqueuedClaims(queue: seq<Entry>, e: Entry, u: string)
    ensures QueuedBy(Enqueued(queue, e), u) == QueuedBy(queue, u) + if e.user == u then 1 else 0
  {
    var n := Reconnects(queue);
    QueuedByConcat(queue, [e], u);
    QueuedByConcat(queue[..n], [e], u);
    QueuedByConcat(queue[..n] + [e], queue[n..], u);
    QueuedByConcat(queue[..n], queue[n..], u);
    assert queue == queue[..n] + queue[n..];
  }

  lemma {:induction false} RunPush(l: Limits, events: seq<(Event, nat)>, e: Event, now: nat)
    ensures Run(l, events + [(e, now)]) == Step(l, Run(l, events), e, now)
    ensures ProperRun(l, events) && (e.Depart? ==> e.user in Run(l, events).state.users)
            ==> ProperRun(l, events + [(e, now)])
  {
    assert (events + [(e, now)])[..|events|] == events;
  }

  /** With all slots taken and nobody timed out, a release hands its slot to the first entry. */
  lemma {:induction false} HandedOn(l: Limits, h: History, user: string, now: nat)
    requires h.state.active == l.total > 0 && h.state.queue != []
    requires forall i :: 0 <= i < |h.state.queue| ==> !TimedOut(l, h.state.queue[i], now)
    ensures Step(l, h, Depart(user), now).state
         == State(l.total, Joined(Left(h.state.users, user), h.state.queue[0].user),
                  h.state.queue[1..], h.state.arrivals)
  {
    var f := FrontAdmitted(FreedSlot(h.state, user));
    assert Dequeued(l, FreedSlot(h.state, user)) == Dequeued(l, f) == f;
    AllWaiting(l, h.state.queue[1..], now);
  }

  lemma {:induction false} AllWaiting(l: Limits, queue: seq<Entry>, now: nat)
    requires forall i :: 0 <= i < |queue| ==> !TimedOut(l, queue[i], now)
    ensures Waiting(l, queue, now) == queue
  {
    if queue != [] { AllWaiting(l, queue[..|queue| - 1], now); }
  }
}

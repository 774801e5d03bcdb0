/** Which requests the admitter lets through, and for how long it lets them wait. */
module Admission {
  import opened Clock
  import opened Admitter

  // ----- one request -----------------------------------------------------------------

  /** Within its rate, not banned, and not while the system is overloaded. */
  predicate Passes(r: Request) { r.rateOk && r.authOk && !r.overloaded }

  predicate UserFull(l: Limits, s: State, user: string) { user in s.users && s.users[user] >= l.perUser }

  /** Only a request that passes all three checks and whose user is below the limit is accepted,
      with a free slot, or queued, with a place in the queue; every other one is rejected for the
      first reason that applies. */
  lemma Verdict(l: Limits, s: State, r: Request, now: nat)
    ensures
      var a, open := Requested(l, s, r, now).1, Passes(r) && !UserFull(l, s, r.user);
      && (a == Rejected(RateLimited) <==> !r.rateOk)
      && (a == Rejected(Banned) <==> r.rateOk && !r.authOk)
      && (a == Rejected(Overloaded) <==> r.rateOk && r.authOk && r.overloaded)
      && (a == Rejected(UserLimit) <==> Passes(r) && UserFull(l, s, r.user))
      && (a == Rejected(TotalLimit) <==> open && s.active >= l.total && !l.queueEnabled)
      && (a == Rejected(QueueFull) <==> open && s.active >= l.total && l.queueEnabled && |s.queue| >= l.queueSize)
      && (a.Queued? <==> open && s.active >= l.total && l.queueEnabled && |s.queue| < l.queueSize)
      && (a.Accepted? <==> open && s.active < l.total)
  {
  }

  /** A rejection changes nothing, an acceptance one slot and one user's count, and a queued
      request the queue, by an entry that says what the request said. */
  lemma {:induction false} Effect(l: Limits, s: State, r: Request, now: nat)
    ensures
      var (t, a) := Requested(l, s, r, now);
      match a
      case Rejected(_) => t == s
      case Accepted =>
        && t.active == s.active + 1 && t.queue == s.queue && t.arrivals == s.arrivals
        && forall u :: CountOf(t.users, u) == CountOf(s.users, u) + if u == r.user then 1 else 0
      case Queued(position) =>
        && t.active == s.active && t.users == s.users && t.arrivals == s.arrivals + 1
        && position == |s.queue| + 1 == |t.queue|
        && multiset(t.queue) == multiset(s.queue)
             + multiset{Entry(s.arrivals, r.session, r.user, r.ip, now, r.reconnect)}
  {
    var e := Entry(s.arrivals, r.session, r.user, r.ip, now, r.reconnect);
    Inserted(s.queue, Reconnects(s.queue), e);
  }

  lemma {:induction false} Inserted(queue: seq<Entry>, n: nat, e: Entry)
    requires n <= |queue|
    ensures multiset(queue[..n] + [e] + queue[n..]) == multiset(queue) + multiset{e}
  {
    assert queue == queue[..n] + queue[n..];
  }

  // ----- whole runs ------------------------------------------------------------------

  /** How many requests of a user have passed the checks. */
  function PassedBy(events: seq<(Event, nat)>, u: string): nat {
    if events == [] then 0
    else
      var last := events[|events| - 1].0;
      PassedBy(events[..|events| - 1], u)
      + if last.Arrive? && last.request.user == u && Passes(last.request) then 1 else 0
  }

  ghost predicate CountsPositive(s: State) { forall u :: u in s.users ==> s.users[u] >= 1 }

  lemma {:induction false} DequeuedPositive(l: Limits, s: State)
    requires CountsPositive(s)
    ensures CountsPositive(Dequeued(l, s))
    decreases |s.queue|
  {
    if s.queue != [] && s.active < l.total { DequeuedPositive(l, FrontAdmitted(s)); }
  }

  lemma {:induction false} RunPositive(l: Limits, events: seq<(Event, nat)>)
    ensures CountsPositive(Run(l, events).state)
  {
    if events != [] {
      var n := |events| - 1;
      var h, e := Run(l, events[..n]), events[n].0;
      RunPositive(l, events[..n]);
      if e.Depart? { DequeuedPositive(l, FreedSlot(h.state, e.user)); }
    }
  }

  lemma {:induction false} ClaimGrows(l: Limits, s: State, r: Request, now: nat, u: string)
    ensures Claims(Requested(l, s, r, now).0, u) <= Claims(s, u) + if r.user == u && Passes(r) then 1 else 0
  {
    Verdict(l, s, r, now);
    EnqueuedClaims(s.queue, Entry(s.arrivals, r.session, r.user, r.ip, now, r.reconnect), u);
  }

  /** A user holds and waits for no more connections than its requests that passed the checks. */
  lemma {:induction false} ClaimsArePassed(l: Limits, events: seq<(Event, nat)>, u: string)
    ensures Claims(Run(l, events).state, u) <= PassedBy(events, u)
  {
    if events != [] {
      var n := |events| - 1;
      var s := Run(l, events[..n]).state;
      ClaimsArePassed(l, events[..n], u);
      match events[n].0
      case Arrive(r) => ClaimGrows(l, s, r, events[n].1, u);
      case Depart(user) =>
        RunPositive(l, events[..n]);
        ReleaseClaims(l, s, user, events[n].1, u);
    }
  }

  /** The entry stands for this arrival, which passed the checks. */
  predicate StandsFor(e: Entry, event: Event, at: nat) {
    && event.Arrive? && Passes(event.request)
    && e.session == event.request.session && e.user == event.request.user && e.ip == event.request.ip
    && e.reconnect == event.request.reconnect && e.enqueued == at
  }

  ghost predicate CameIn(events: seq<(Event, nat)>, e: Entry) {
    exists i :: 0 <= i < |events| && StandsFor(e, events[i].0, events[i].1)
  }

  lemma {:induction false} CameInEarlier(events: seq<(Event, nat)>, e: Entry)
    requires events != [] && CameIn(events[..|events| - 1], e)
    ensures CameIn(events, e)
  {
    var i :| 0 <= i < |events| - 1 && StandsFor(e, events[..|events| - 1][i].0, events[..|events| - 1][i].1);
    assert StandsFor(e, events[i].0, events[i].1);
  }

  /** Who is in the queue after a step was there before, or has just come in. */
  lemma {:induction false} StepQueue(l: Limits, h: History, event: Event, now: nat, e: Entry)
    requires e in Step(l, h, event, now).state.queue
    ensures e in h.state.queue || StandsFor(e, event, now)
  {
    match event
    case Arrive(r) =>
      Verdict(l, h.state, r, now);
      Effect(l, h.state, r, now);
      assert e in multiset(Step(l, h, event, now).state.queue);
    case Depart(user) =>
      var s := FreedSlot(h.state, user);
      DequeuedSuffix(l, s);
      WaitingAre(l, Dequeued(l, s).queue, now);
  }

  /** Everyone who waits has come in with a request that passed the checks, and the entry says
      what the request said and when it came. */
  lemma {:induction false} WaitersPassed(l: Limits, events: seq<(Event, nat)>, e: Entry)
    requires e in Run(l, events).state.queue
    ensures CameIn(events, e)
  {
    var n := |events| - 1;
    StepQueue(l, Run(l, events[..n]), events[n].0, events[n].1, e);
    if e in Run(l, events[..n]).state.queue {
      WaitersPassed(l, events[..n], e);
      CameInEarlier(events, e);
    }
  }

  // ----- how long --------------------------------------------------------------------

  lemma {:induction false} WaitingAre(l: Limits, queue: seq<Entry>, now: nat)
    ensures forall e :: e in Waiting(l, queue, now) <==> e in queue && !TimedOut(l, e, now)
    ensures forall e :: e in Expired(l, queue, now) <==> e in queue && TimedOut(l, e, now)
  {
    if queue != [] {
      WaitingAre(l, queue[..|queue| - 1], now);
      assert queue == queue[..|queue| - 1] + [queue[|queue| - 1]];
    }
  }

  /** A look at the queue times out exactly the entries that have waited for the whole time. */
  lemma {:induction false} TimedOutAre(l: Limits, queue: seq<Entry>, now: nat, e: Entry)
    requires e in queue && e.enqueued <= now
    ensures e in Expired(l, queue, now) <==> now - e.enqueued >= l.timeout * NANOS
    ensures e in Waiting(l, queue, now) <==> now - e.enqueued < l.timeout * NANOS
  {
    WaitingAre(l, queue, now);
    WholeSecondsAre(e.enqueued, now, l.timeout);
  }
}

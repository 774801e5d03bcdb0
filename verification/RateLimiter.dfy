/** The rate limiter: per address, a window of connections that starts anew one second after
    it began, and a window of failed logins that can end in a ban. */
module RateLimiter {
  import opened Clock

  datatype Limits = Limits(connections: int, failures: int, banSeconds: int)

  /** Times not set yet are the clock's epoch, zero. */
  datatype Info = Info(connections: int, connStart: nat, failures: int, failStart: nat, bannedUntil: int)

  type Rates = map<string, Info>

  function Checked(l: Limits, rates: Rates, ip: string, now: nat): (Rates, bool) {
    if ip !in rates then (rates[ip := Info(1, now, 0, 0, 0)], true)
    else
      var info := rates[ip];
      if WholeSeconds(info.connStart, now) >= 1 then
        (rates[ip := info.(connections := 1, connStart := now)], true)
      else
        (rates[ip := info.(connections := info.connections + 1)], info.connections + 1 <= l.connections)
  }

  function AuthAllowed(l: Limits, rates: Rates, ip: string, now: nat): bool {
    if ip !in rates then true
    else
      var info := rates[ip];
      now >= info.bannedUntil
      && (WholeSeconds(info.failStart, now) >= 60 || info.failures < l.failures)
  }

  function Failed(l: Limits, rates: Rates, ip: string, now: nat): Rates {
    if ip !in rates then rates[ip := Info(0, 0, 1, now, 0)]
    else
      var info := rates[ip];
      var counted := if WholeSeconds(info.failStart, now) >= 60
                     then info.(failures := 1, failStart := now)
                     else info.(failures := info.failures + 1);
      rates[ip := if counted.failures >= l.failures
                  then counted.(bannedUntil := now + l.banSeconds * NANOS) else counted]
  }

  class RateLimiter {
    const limits: Limits
    var rates: Rates

    constructor (limits: Limits)
      ensures rates == map[] && this.limits == limits
    {
      this.limits := limits;
      rates := map[];
    }

    method CheckConnectionRate(ip: string, now: nat) returns (ok: bool)
      modifies this
      ensures (rates, ok) == Checked(limits, old(rates), ip, now)
    {
      if ip !in rates {
        rates := rates[ip := Info(1, now, 0, 0, 0)];
        return true;
      }
      var info := rates[ip];
      if WholeSeconds(info.connStart, now) >= 1 {
        rates := rates[ip := info.(connections := 1, connStart := now)];
        return true;
      }
      info := info.(connections := info.connections + 1);
      rates := rates[ip := info];
      return info.connections <= limits.connections;
    }

    method CheckAuthRate(ip: string, now: nat) returns (ok: bool)
      ensures ok == AuthAllowed(limits, rates, ip, now)
    {
      if ip !in rates { return true; }
      var info := rates[ip];
      if now < info.bannedUntil { return false; }
      if WholeSeconds(info.failStart, now) >= 60 { return true; }
      return info.failures < limits.failures;
    }

    method RecordAuthFailure(ip: string, now: nat)
      modifies this
      ensures rates == Failed(limits, old(rates), ip, now)
    {
      if ip !in rates {
        rates := rates[ip := Info(0, 0, 1, now, 0)];
        return;
      }
      var info := rates[ip];
      if WholeSeconds(info.failStart, now) >= 60 {
        info := info.(failures := 1, failStart := now);
      } else {
        info := info.(failures := info.failures + 1);
      }
      if info.failures >= limits.failures {
        info := info.(bannedUntil := now + limits.banSeconds * NANOS);
      }
      rates := rates[ip := info];
    }
  }

  // ----- runs ------------------------------------------------------------------------

  datatype Event = Connect(ip: string, at: nat) | AuthFailure(ip: string, at: nat)

  ghost predicate Monotone(events: seq<Event>) {
    forall i, j :: 0 <= i < j < |events| ==> events[i].at <= events[j].at
  }

  function After(l: Limits, rates: Rates, e: Event): Rates {
    match e
    case Connect(ip, at) => Checked(l, rates, ip, at).0
    case AuthFailure(ip, at) => Failed(l, rates, ip, at)
  }

  function Run(l: Limits, events: seq<Event>): Rates {
    if events == [] then map[]
    else After(l, Run(l, events[..|events| - 1]), events[|events| - 1])
  }

  /** Whether event e, arriving in state rates, is an accepted connection of ip in [lo, hi). */
  predicate Counts(l: Limits, rates: Rates, e: Event, ip: string, lo: int, hi: int) {
    e.Connect? && e.ip == ip && lo <= e.at < hi && Checked(l, rates, ip, e.at).1
  }

  /** Connections of ip accepted in [lo, hi) during the run. */
  function Accepted(l: Limits, events: seq<Event>, ip: string, lo: int, hi: int): nat {
    if events == [] then 0
    else
      var front, e := events[..|events| - 1], events[|events| - 1];
      Accepted(l, front, ip, lo, hi) + if Counts(l, Run(l, front), e, ip, lo, hi) then 1 else 0
  }

  // ----- the interval bound ----------------------------------------------------------

  /** The most one window accepts: its first connection is let in whatever the limit. */
  function PerWindow(l: Limits): (m: nat)
    ensures m >= 1
  {
    if l.connections >= 1 then l.connections else 1
  }

  function Min(a: int, b: int): int { if a <= b then a else b }

  /** Windows that began in [lo, start]: they begin at least one second apart. */
  function WindowsSince(lo: nat, start: nat): nat {
    if start < lo then 0 else 1 + (start - lo) / NANOS
  }

  /** Accepted connections, against the windows that can have accepted them: `count` is how
      many in [lo, ...) so far, `now` the time of the last event. */
  ghost predicate WithinWindows(l: Limits, rates: Rates, ip: string, lo: nat, now: nat, count: nat) {
    && (count > 0 ==> now >= lo)
    && (ip !in rates ==> count == 0)
    && (ip in rates ==>
          var info := rates[ip];
          && info.connStart <= now && info.connections >= 0
          && (info.connections == 0 ==> info.connStart == 0)
          && (info.connStart < lo && count > 0 && lo >= NANOS ==>
                count <= Min(info.connections, PerWindow(l)) - 1)
          && count <= WindowsSince(lo, info.connStart) * PerWindow(l)
                      + Min(info.connections, PerWindow(l))
          && (info.connStart >= lo >= NANOS ==>
                count <= WindowsSince(lo, info.connStart) * PerWindow(l)
                         + Min(info.connections, PerWindow(l)) - 1))
  }

  lemma {:induction false} MoreWindows(lo: nat, start: nat, now: nat, m: nat)
    requires start <= now && WholeSeconds(start, now) >= 1 && now >= lo
    ensures WindowsSince(lo, start) + 1 <= WindowsSince(lo, now)
    ensures WindowsSince(lo, start) * m + m <= WindowsSince(lo, now) * m
  {
    var a, b := WindowsSince(lo, start), WindowsSince(lo, now);
    assert now >= start + NANOS;
    if start >= lo {
      assert (start - lo + NANOS) / NANOS == (start - lo) / NANOS + 1;
    }
    ProductGrows(a, b, m);
  }

  lemma {:induction false} ProductGrows(a: nat, b: nat, m: nat)
    requires a + 1 <= b
    ensures a * m + m <= b * m
  {
    assert (b - a - 1) * m >= 0;
    assert b * m == a * m + m + (b - a - 1) * m;
  }

  lemma {:induction false} StepWithinWindows(l: Limits, rates: Rates, e: Event, ip: string, lo: nat, hi: int,
                          before: nat, count: nat)
    requires WithinWindows(l, rates, ip, lo, before, count) && before <= e.at
    ensures WithinWindows(l, After(l, rates, e), ip, lo, e.at,
              count + if Counts(l, rates, e, ip, lo, hi) then 1 else 0)
  {
    if e.Connect? && e.ip == ip {
      ConnectWithinWindows(l, rates, e.at, ip, lo, hi, before, count);
    }
  }

  lemma {:induction false} ConnectWithinWindows(l: Limits, rates: Rates, now: nat, ip: string, lo: nat, hi: int,
                             before: nat, count: nat)
    requires WithinWindows(l, rates, ip, lo, before, count) && before <= now
    ensures WithinWindows(l, Checked(l, rates, ip, now).0, ip, lo, now,
              count + if Counts(l, rates, Connect(ip, now), ip, lo, hi) then 1 else 0)
  {
    var m := PerWindow(l);
    if ip in rates && WholeSeconds(rates[ip].connStart, now) >= 1 {
      if now >= lo {
        MoreWindows(lo, rates[ip].connStart, now, m);
      }
    } else if ip in rates {
      assert now < rates[ip].connStart + NANOS;
    } else if now >= lo {
      ProductGrows(0, WindowsSince(lo, now), m);
    }
  }

  function LastTime(events: seq<Event>): nat {
    if events == [] then 0 else events[|events| - 1].at
  }

  lemma {:induction false} RunWithinWindows(l: Limits, events: seq<Event>, ip: string, lo: nat, hi: int)
    requires Monotone(events)
    ensures WithinWindows(l, Run(l, events), ip, lo, LastTime(events), Accepted(l, events, ip, lo, hi))
  {
    if events != [] {
      var front, e := events[..|events| - 1], events[|events| - 1];
      RunWithinWindows(l, front, ip, lo, hi);
      StepWithinWindows(l, Run(l, front), e, ip, lo, hi, LastTime(front), Accepted(l, front, ip, lo, hi));
    }
  }

  /** In any half-open interval of k seconds at most k + 1 windows' worth of connections of one
      address is accepted; one fewer once the clock is past its first second, for then the
      window open at the start has let its first connection in before. */
  lemma {:induction false} IntervalBound(l: Limits, events: seq<Event>, ip: string, lo: nat, k: nat)
    requires Monotone(events)
    ensures Accepted(l, events, ip, lo, lo + k * NANOS)
         <= (k + 1) * PerWindow(l) - if lo >= NANOS then 1 else 0
  {
    var m, hi := PerWindow(l), lo + k * NANOS;
    ProductGrows(0, k + 1, m);
    if events != [] {
      var front, e := events[..|events| - 1], events[|events| - 1];
      if Counts(l, Run(l, front), e, ip, lo, hi) {
        RunWithinWindows(l, events, ip, lo, hi);
        var start := Run(l, events)[ip].connStart;
        WindowsWithin(lo, start, k);
        ProductGrows(WindowsSince(lo, start), k + 1, m);
      } else {
        IntervalBound(l, front, ip, lo, k);
      }
    }
  }

  lemma {:induction false} WindowsWithin(lo: nat, start: nat, k: nat)
    requires start < lo + k * NANOS && k > 0
    ensures WindowsSince(lo, start) <= k
  {
    if start >= lo {
      assert (start - lo) / NANOS < k by { QuotientBelow(start - lo, k); }
    }
  }

  lemma QuotientBelow(x: nat, k: nat)
    requires x < k * NANOS
    ensures x / NANOS < k
  {
  }

  // ----- the bound is sharp ----------------------------------------------------------

  lemma {:induction false} RunPush(l: Limits, events: seq<Event>, e: Event, ip: string, lo: int, hi: int)
    ensures Run(l, events + [e]) == After(l, Run(l, events), e)
    ensures Accepted(l, events + [e], ip, lo, hi)
         == Accepted(l, events, ip, lo, hi) + if Counts(l, Run(l, events), e, ip, lo, hi) then 1 else 0
  {
    assert (events + [e])[..|events|] == events;
  }

  /** The window of ip began at start and has let c connections in, and so many of them, and of
      those before, are accepted in [lo, hi). */
  ghost predicate InWindow(l: Limits, events: seq<Event>, ip: string, start: nat, c: nat,
                           lo: int, hi: int, accepted: nat) {
    && ip in Run(l, events)
    && Run(l, events)[ip].connStart == start && Run(l, events)[ip].connections == c
    && Accepted(l, events, ip, lo, hi) == accepted
  }

  lemma {:induction false} Grow(l: Limits, events: seq<Event>, ip: string, at: nat, c: nat, start: nat,
             lo: int, hi: int, accepted: nat)
    requires InWindow(l, events, ip, start, c, lo, hi, accepted) && Monotone(events)
    requires start <= at < start + NANOS && LastTime(events) <= at
    requires lo <= at < hi && c + 1 <= l.connections
    ensures InWindow(l, events + [Connect(ip, at)], ip, start, c + 1, lo, hi, accepted + 1)
    ensures Monotone(events + [Connect(ip, at)])
  {
    RunPush(l, events, Connect(ip, at), ip, lo, hi);
  }

  /** n connections at one moment of a window that has had c so far, all let in. */
  lemma {:induction false} Burst(l: Limits, before: seq<Event>, ip: string, at: nat, n: nat, c: nat,
                                 start: nat, lo: int, hi: int, accepted: nat)
    returns (events: seq<Event>)
    requires InWindow(l, before, ip, start, c, lo, hi, accepted) && Monotone(before)
    requires start <= at < start + NANOS && LastTime(before) <= at
    requires lo <= at < hi && c + n <= l.connections
    ensures InWindow(l, events, ip, start, c + n, lo, hi, accepted + n)
    ensures Monotone(events) && LastTime(events) <= at
  {
    if n == 0 {
      events := before;
    } else {
      events := Burst(l, before, ip, at, n - 1, c, start, lo, hi, accepted);
      Grow(l, events, ip, at, c + n - 1, start, lo, hi, accepted + n - 1);
      events := events + [Connect(ip, at)];
    }
  }

  /** A window that begins one second after the last one, and lets in all it can at once. */
  lemma {:induction false} NextWindow(l: Limits, before: seq<Event>, ip: string, start: nat, c: nat,
                                      lo: int, hi: int, accepted: nat)
    returns (events: seq<Event>)
    requires InWindow(l, before, ip, start, c, lo, hi, accepted) && Monotone(before) && l.connections >= 1
    requires LastTime(before) <= start + NANOS && lo <= start + NANOS < hi
    ensures InWindow(l, events, ip, start + NANOS, l.connections, lo, hi, accepted + l.connections)
    ensures Monotone(events) && LastTime(events) <= start + NANOS
  {
    var at := start + NANOS;
    RunPush(l, before, Connect(ip, at), ip, lo, hi);
    events := before + [Connect(ip, at)];
    events := Burst(l, events, ip, at, l.connections - 1, 1, at, lo, hi, accepted + 1);
  }

  /** k full windows, a second apart. */
  lemma {:induction false} FullWindows(l: Limits, before: seq<Event>, ip: string, start: nat, c: nat, k: nat,
                                       lo: int, hi: int, accepted: nat)
    returns (events: seq<Event>)
    requires InWindow(l, before, ip, start, c, lo, hi, accepted) && Monotone(before) && l.connections >= 1
    requires LastTime(before) <= start + NANOS && lo <= start + NANOS && start + k * NANOS < hi
    ensures Accepted(l, events, ip, lo, hi) == accepted + k * l.connections
    ensures k > 0 ==> InWindow(l, events, ip, start + k * NANOS, l.connections, lo, hi, accepted + k * l.connections)
    ensures Monotone(events) && LastTime(events) <= start + if k > 0 then k * NANOS else NANOS
  {
    if k == 0 {
      events := before;
    } else if k == 1 {
      events := NextWindow(l, before, ip, start, c, lo, hi, accepted);
    } else {
      events := FullWindows(l, before, ip, start, c, k - 1, lo, hi, accepted);
      var s, a := start + (k - 1) * NANOS, accepted + (k - 1) * l.connections;
      events := NextWindow(l, events, ip, s, l.connections, lo, hi, a);
      OneMoreFull(k, l.connections);
    }
  }

  lemma OneMoreFull(k: nat, m: nat)
    requires k >= 1
    ensures (k - 1) * m + m == k * m
  {
  }

  /** So many connections of ip are accepted in the k seconds from lo on. */
  ghost predicate Attains(l: Limits, ip: string, k: nat, events: seq<Event>, lo: nat, count: int) {
    Monotone(events) && Accepted(l, events, ip, lo, lo + k * NANOS) == count
  }

  /** Some run has so many in an interval that begins within the clock's first second, or later. */
  ghost predicate Reached(l: Limits, ip: string, k: nat, late: bool, count: int) {
    exists events: seq<Event>, lo: nat :: (late <==> lo >= NANOS) && Attains(l, ip, k, events, lo, count)
  }

  /** For every positive limit and length the bound is reached, early and late: with a window that
      nothing has come in through, or, after the clock's first second, with one that has let one
      connection in before; and k full windows. */
  lemma {:induction false} BoundAttained(l: Limits, ip: string, k: nat)
    requires l.connections >= 1 && k >= 1
    ensures Reached(l, ip, k, false, (k + 1) * PerWindow(l))
    ensures Reached(l, ip, k, true, (k + 1) * PerWindow(l) - 1)
  {
    var m := l.connections;
    var early := OpenedEarly(l, ip, k);
    early := RestAndFull(l, early, ip, k, 0, 0, m);
    assert Attains(l, ip, k, early, NANOS - 1, (k + 1) * m);
    var late := OpenedLate(l, ip, k);
    late := RestAndFull(l, late, ip, k, NANOS, 1, m - 1);
    assert Attains(l, ip, k, late, 2 * NANOS - 1, (k + 1) * m - 1);
  }

  /** A failed login at the epoch leaves a window that nothing has come in through yet. */
  lemma {:induction false} OpenedEarly(l: Limits, ip: string, k: nat) returns (events: seq<Event>)
    ensures Monotone(events) && LastTime(events) == 0
    ensures InWindow(l, events, ip, 0, 0, NANOS - 1, NANOS - 1 + k * NANOS, 0)
  {
    RunPush(l, [], AuthFailure(ip, 0), ip, NANOS - 1, NANOS - 1 + k * NANOS);
    events := [] + [AuthFailure(ip, 0)];
  }

  lemma {:induction false} OpenedLate(l: Limits, ip: string, k: nat) returns (events: seq<Event>)
    ensures Monotone(events) && LastTime(events) == NANOS
    ensures InWindow(l, events, ip, NANOS, 1, 2 * NANOS - 1, 2 * NANOS - 1 + k * NANOS, 0)
  {
    RunPush(l, [], Connect(ip, NANOS), ip, 2 * NANOS - 1, 2 * NANOS - 1 + k * NANOS);
    events := [] + [Connect(ip, NANOS)];
  }

  /** What an open window still lets in, at its last moment, and k full windows. */
  lemma {:induction false} RestAndFull(l: Limits, before: seq<Event>, ip: string, k: nat, start: nat, c: nat, rest: nat)
    returns (events: seq<Event>)
    requires l.connections >= 1 && k >= 1 && c + rest == l.connections
    requires Monotone(before) && LastTime(before) == start
    requires InWindow(l, before, ip, start, c, start + NANOS - 1, start + NANOS - 1 + k * NANOS, 0)
    ensures Attains(l, ip, k, events, start + NANOS - 1, (k + 1) * l.connections - c)
  {
    var m, lo := l.connections, start + NANOS - 1;
    var hi := lo + k * NANOS;
    events := Burst(l, before, ip, lo, rest, c, start, lo, hi, 0);
    events := FullWindows(l, events, ip, start, m, k, lo, hi, rest);
    OneMoreFull(k + 1, m);
  }

  // ----- bans ------------------------------------------------------------------------

  ghost predicate BannedUntil(rates: Rates, ip: string, until: int) {
    ip in rates && rates[ip].bannedUntil >= until
  }

  lemma BanStep(l: Limits, rates: Rates, e: Event, ip: string, at: nat)
    requires BannedUntil(rates, ip, at + l.banSeconds * NANOS) && at <= e.at
    ensures BannedUntil(After(l, rates, e), ip, at + l.banSeconds * NANOS)
  {
  }

  /** Once a failure has reached the limit of an address known before, no later event lifts the
      ban before its time. */
  lemma {:induction false} BanHolds(l: Limits, events: seq<Event>, n: nat, ip: string, at: nat, now: nat)
    requires Monotone(events) && n < |events| && events[n] == AuthFailure(ip, at)
    requires ip in Run(l, events[..n])
    requires Failed(l, Run(l, events[..n]), ip, at)[ip].failures >= l.failures
    ensures BannedUntil(Run(l, events), ip, at + l.banSeconds * NANOS)
    ensures now < at + l.banSeconds * NANOS ==> !AuthAllowed(l, Run(l, events), ip, now)
  {
    var front := events[..|events| - 1];
    if |events| > n + 1 {
      assert front[..n] == events[..n];
      BanHolds(l, front, n, ip, at, now);
      BanStep(l, Run(l, front), events[|events| - 1], ip, at);
    }
  }
}

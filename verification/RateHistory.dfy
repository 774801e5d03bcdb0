/** What the rate limiter answers, in terms of what has happened to the address before. */
module RateHistory {
  import opened Clock
  import opened RateLimiter

  /** What is counted: an address's connections, a second at a time, and its failed logins, a
      minute at a time. */
  datatype Kind = Connections | Failures

  function Length(kind: Kind): nat { if kind.Connections? then NANOS else 60 * NANOS }

  predicate Is(e: Event, kind: Kind, ip: string) { e.ip == ip && (e.Connect? <==> kind.Connections?) }

  predicate Known(events: seq<Event>, ip: string) { exists i :: 0 <= i < |events| && events[i].ip == ip }

  /** The event that a window began with, and when; the first one begins with the clock. */
  datatype Window = Window(first: nat, start: nat)

  /** The window open after these events: the last event begins a new one if it is the first that
      is heard of the address, or if the window before it is over by then. */
  function Current(events: seq<Event>, kind: Kind, ip: string): (w: Window)
    ensures w.first <= |events|
  {
    if events == [] then Window(0, 0)
    else
      var front, e := events[..|events| - 1], events[|events| - 1];
      var before := Current(front, kind, ip);
      if Is(e, kind, ip) && (!Known(front, ip) || e.at >= before.start + Length(kind))
      then Window(|front|, e.at) else before
  }

  function Number(events: seq<Event>, kind: Kind, ip: string): nat {
    if events == [] then 0
    else
      Number(events[..|events| - 1], kind, ip) + if Is(events[|events| - 1], kind, ip) then 1 else 0
  }

  /** How many events of the kind the current window has. */
  function Counted(events: seq<Event>, kind: Kind, ip: string): nat {
    Number(events[Current(events, kind, ip).first..], kind, ip)
  }

  // ----- windows ---------------------------------------------------------------------

  lemma {:induction false} StartIsPast(events: seq<Event>, kind: Kind, ip: string, now: nat)
    requires Monotone(events) && LastTime(events) <= now
    ensures Current(events, kind, ip).start <= now
  {
    if events != [] { StartIsPast(events[..|events| - 1], kind, ip, now); }
  }

  /** No window outlasts its time: what it counts happened within the second, or the minute. */
  lemma {:induction false} WithinWindow(events: seq<Event>, kind: Kind, ip: string, i: nat)
    requires Monotone(events) && Current(events, kind, ip).first <= i < |events| && Is(events[i], kind, ip)
    ensures
      var w := Current(events, kind, ip);
      w.start <= events[i].at < w.start + Length(kind)
  {
    var front := events[..|events| - 1];
    if i < |front| && Current(events, kind, ip) == Current(front, kind, ip) {
      WithinWindow(front, kind, ip, i);
    } else {
      StartIsPast(front, kind, ip, events[|events| - 1].at);
      LastEvent(events, kind, ip);
    }
  }

  lemma LastEvent(events: seq<Event>, kind: Kind, ip: string)
    requires events != [] && Is(events[|events| - 1], kind, ip)
    ensures
      var front, e := events[..|events| - 1], events[|events| - 1];
      var w := Current(events, kind, ip);
      || w == Window(|front|, e.at)
      || (w == Current(front, kind, ip) && e.at < w.start + Length(kind))
  {
  }

  /** A window begins with an event it counts, or, where none has begun yet, with the clock. */
  lemma {:induction false} WindowBegins(events: seq<Event>, kind: Kind, ip: string)
    ensures
      var w := Current(events, kind, ip);
      || w == Window(0, 0)
      || (w.first < |events| && Is(events[w.first], kind, ip) && w.start == events[w.first].at)
  {
    if events != [] { WindowBegins(events[..|events| - 1], kind, ip); }
  }

  /** How many events of the kind the current window has, and when it began. */
  datatype Tally = Tally(number: nat, start: nat)

  function TallyOf(events: seq<Event>, kind: Kind, ip: string): Tally {
    Tally(Counted(events, kind, ip), Current(events, kind, ip).start)
  }

  function NextTally(t: Tally, known: bool, e: Event, kind: Kind, ip: string): Tally {
    if !Is(e, kind, ip) then t
    else if !known || e.at >= t.start + Length(kind) then Tally(1, e.at)
    else Tally(t.number + 1, t.start)
  }

  lemma {:induction false} TallyStep(events: seq<Event>, kind: Kind, ip: string)
    requires events != []
    ensures
      var front, e := events[..|events| - 1], events[|events| - 1];
      TallyOf(events, kind, ip) == NextTally(TallyOf(front, kind, ip), Known(front, ip), e, kind, ip)
  {
    var front, e, first := events[..|events| - 1], events[|events| - 1], Current(events, kind, ip).first;
    NumberStep(events, kind, ip, first);
    if first == |front| { assert front[first..] == []; }
  }

  lemma {:induction false} NumberStep(events: seq<Event>, kind: Kind, ip: string, first: nat)
    requires first < |events|
    ensures
      var front, e := events[..|events| - 1], events[|events| - 1];
      Number(events[first..], kind, ip) == Number(front[first..], kind, ip) + if Is(e, kind, ip) then 1 else 0
  {
    var since := events[first..];
    assert since[..|since| - 1] == events[..|events| - 1][first..];
  }

  lemma {:induction false} KnownStep(events: seq<Event>, ip: string)
    requires events != []
    ensures Known(events, ip) <==> Known(events[..|events| - 1], ip) || events[|events| - 1].ip == ip
  {
    var front := events[..|events| - 1];
    if Known(front, ip) {
      var i :| 0 <= i < |front| && front[i].ip == ip;
      assert events[i].ip == ip;
    }
  }

  // ----- what the limiter has noted --------------------------------------------------

  /** The limiter's record of an address it has heard of, or none of one it has not. */
  predicate Records(rates: Rates, ip: string, known: bool, connections: Tally, failures: Tally) {
    && (ip in rates <==> known)
    && (known ==>
          && rates[ip].failures == failures.number && rates[ip].failStart == failures.start
          && rates[ip].connections == connections.number && rates[ip].connStart == connections.start)
  }

  lemma {:induction false} StepRecords(l: Limits, rates: Rates, e: Event, ip: string, known: bool,
                                       connections: Tally, failures: Tally)
    requires Records(rates, ip, known, connections, failures)
    requires connections.start <= e.at && failures.start <= e.at
    requires !known ==> connections == Tally(0, 0) && failures == Tally(0, 0)
    ensures Records(After(l, rates, e), ip, known || e.ip == ip,
              NextTally(connections, known, e, Connections, ip), NextTally(failures, known, e, Failures, ip))
  {
    if e.Connect? { WholeSecondsAre(connections.start, e.at, 1); }
    else { WholeSecondsAre(failures.start, e.at, 60); }
  }

  /** What the limiter has noted after a run: which addresses it has heard of, the numbers of
      connections and failures in their current windows, and when these began. */
  lemma {:induction false} NotesAreHistory(l: Limits, events: seq<Event>, ip: string)
    requires Monotone(events)
    ensures Records(Run(l, events), ip, Known(events, ip),
              TallyOf(events, Connections, ip), TallyOf(events, Failures, ip))
  {
    if events != [] {
      var front, e := events[..|events| - 1], events[|events| - 1];
      NotesAreHistory(l, front, ip);
      KnownStep(events, ip);
      TallyStep(events, Connections, ip);
      TallyStep(events, Failures, ip);
      StartIsPast(front, Connections, ip, e.at);
      StartIsPast(front, Failures, ip, e.at);
      if !Known(front, ip) { NothingCounted(front, Failures, ip); NothingCounted(front, Connections, ip); }
      StepRecords(l, Run(l, front), e, ip, Known(front, ip),
        TallyOf(front, Connections, ip), TallyOf(front, Failures, ip));
    }
  }

  lemma {:induction false} NothingCounted(events: seq<Event>, kind: Kind, ip: string)
    requires !Known(events, ip)
    ensures Current(events, kind, ip) == Window(0, 0) && Counted(events, kind, ip) == 0
  {
    if events != [] {
      KnownStep(events, ip);
      NothingCounted(events[..|events| - 1], kind, ip);
      TallyStep(events, kind, ip);
    }
  }

  // ----- connections -----------------------------------------------------------------

  /** A connection is refused exactly when the second of the current window is not over and the
      window has had all that the limit allows. */
  lemma {:induction false} ConnectionRefusedExactly(l: Limits, events: seq<Event>, ip: string, now: nat)
    requires Monotone(events) && LastTime(events) <= now
    ensures !Checked(l, Run(l, events), ip, now).1 <==>
            (&& Known(events, ip)
             && now < Current(events, Connections, ip).start + NANOS
             && Counted(events, Connections, ip) >= l.connections)
  {
    NotesAreHistory(l, events, ip);
    StartIsPast(events, Connections, ip, now);
    WholeSecondsAre(Current(events, Connections, ip).start, now, 1);
  }

  // ----- failed logins ---------------------------------------------------------------

  /** Whether an event bans the address: a failure that is not the first that is heard of it, and
      that brings the number of failures in its window to the limit. */
  predicate Bans(l: Limits, events: seq<Event>, ip: string, i: nat) {
    && i < |events| && Is(events[i], Failures, ip) && Known(events[..i], ip)
    && Counted(events[..i + 1], Failures, ip) >= l.failures
  }

  /** Whether a ban is still in force. */
  ghost predicate Banned(l: Limits, events: seq<Event>, ip: string, now: nat) {
    exists i: nat :: Bans(l, events, ip, i) && now < events[i].at + l.banSeconds * NANOS
  }

  lemma {:induction false} BannedStep(l: Limits, events: seq<Event>, ip: string, now: nat)
    requires events != []
    ensures
      var n := |events| - 1;
      Banned(l, events, ip, now) <==>
        (|| Banned(l, events[..n], ip, now)
         || (Bans(l, events, ip, n) && now < events[n].at + l.banSeconds * NANOS))
  {
    var n := |events| - 1;
    var front := events[..n];
    forall i: nat | i < n ensures Bans(l, events, ip, i) <==> Bans(l, front, ip, i) {
      assert events[..i] == front[..i] && events[..i + 1] == front[..i + 1];
    }
    if Banned(l, front, ip, now) {
      var i: nat :| Bans(l, front, ip, i) && now < front[i].at + l.banSeconds * NANOS;
      assert Bans(l, events, ip, i);
    }
  }

  /** No ban reaches further than one that begins now. */
  predicate Reaches(l: Limits, rates: Rates, ip: string, now: nat) {
    ip in rates ==> rates[ip].bannedUntil == 0 || rates[ip].bannedUntil <= now + l.banSeconds * NANOS
  }

  predicate InBan(rates: Rates, ip: string, now: nat) { ip in rates && now < rates[ip].bannedUntil }

  lemma BanFollows(l: Limits, rates: Rates, e: Event, ip: string, before: nat, now: nat)
    requires Reaches(l, rates, ip, before) && before <= e.at
    ensures
      var t := After(l, rates, e);
      && Reaches(l, t, ip, e.at)
      && (InBan(t, ip, now) <==>
          (|| InBan(rates, ip, now)
           || (&& ip in rates && Is(e, Failures, ip) && t[ip].failures >= l.failures
               && now < e.at + l.banSeconds * NANOS)))
  {
  }

  lemma {:induction false} BansAre(l: Limits, events: seq<Event>, ip: string, now: nat)
    requires Monotone(events)
    ensures Banned(l, events, ip, now) <==> InBan(Run(l, events), ip, now)
    ensures Reaches(l, Run(l, events), ip, LastTime(events))
  {
    if events != [] {
      var n := |events| - 1;
      var front, e := events[..n], events[n];
      BansAre(l, front, ip, now);
      BannedStep(l, events, ip, now);
      NotesAreHistory(l, front, ip);
      NotesAreHistory(l, events, ip);
      BanFollows(l, Run(l, front), e, ip, LastTime(front), now);
      LastBans(l, events, ip);
    }
  }

  lemma {:induction false} LastBans(l: Limits, events: seq<Event>, ip: string)
    requires events != []
    ensures
      var n := |events| - 1;
      Bans(l, events, ip, n) <==>
        Is(events[n], Failures, ip) && Known(events[..n], ip) && TallyOf(events, Failures, ip).number >= l.failures
  {
    assert events[..|events|] == events;
  }

  /** A login is refused exactly when a ban is still in force, or the minute of the current
      window is not over and the window has had the limit's number of failures. */
  lemma {:induction false} LoginRefusedExactly(l: Limits, events: seq<Event>, ip: string, now: nat)
    requires Monotone(events) && LastTime(events) <= now
    ensures !AuthAllowed(l, Run(l, events), ip, now) <==>
            (|| Banned(l, events, ip, now)
             || (&& Known(events, ip)
                 && now < Current(events, Failures, ip).start + 60 * NANOS
                 && Counted(events, Failures, ip) >= l.failures))
  {
    NotesAreHistory(l, events, ip);
    BansAre(l, events, ip, now);
    StartIsPast(events, Failures, ip, now);
    WholeSecondsAre(Current(events, Failures, ip).start, now, 60);
  }
}

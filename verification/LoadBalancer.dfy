/** Choosing a node for a client: the candidates, the four strategies, and the affinity that
    goes before them. */
module LoadBalancer {
  import opened Wrappers
  import opened Clock
  import Health
  import IpAffinity
  import LruHistory
  import W = WeightedRoundRobin

  datatype Candidate = Candidate(tag: string, active: int, weight: int, latency: int)

  datatype Strategy = RoundRobin | Weighted | LeastConnections | LowestLatency

  /** What the choice depends on: the node list, and what is known of each node. */
  datatype View = View(nodes: seq<string>, health: Health.Nodes, active: map<string, int>,
                       weights: map<string, int>, capacity: int)

  datatype Selection = Selection(tag: string, fromAffinity: bool)

  function ActiveOn(active: map<string, int>, tag: string): int {
    if tag in active then active[tag] else 0
  }

  function WeightOf(weights: map<string, int>, tag: string): int {
    if tag in weights then weights[tag] else 100
  }

  /** Not known to be down, and below its capacity. */
  predicate Usable(v: View, tag: string) {
    Health.StatusOf(v.health, tag) != Health.Unavailable && ActiveOn(v.active, tag) < v.capacity
  }

  function CandidateOf(v: View, tag: string): Candidate {
    Candidate(tag, ActiveOn(v.active, tag), WeightOf(v.weights, tag),
              Health.InfoOf(v.health, tag).latency)
  }

  function Candidates(v: View, nodes: seq<string>, exclude: seq<string>): seq<Candidate> {
    if nodes == [] then []
    else
      var rest, tag := Candidates(v, nodes[..|nodes| - 1], exclude), nodes[|nodes| - 1];
      if tag !in exclude && Usable(v, tag) then rest + [CandidateOf(v, tag)] else rest
  }

  // The laws speak of the maps themselves, with what a missing entry stands for.

  function Entry(m: map<string, int>, tag: string, default: int): int {
    if tag in m then m[tag] else default
  }

  /** No record says that the node is down, and it has fewer connections than it may have. */
  predicate Open(v: View, tag: string) {
    && (tag in v.health ==> v.health[tag].status != Health.Unavailable)
    && Entry(v.active, tag, 0) < v.capacity
  }

  function Latency(v: View, tag: string): int {
    if tag in v.health then v.health[tag].latency else 0
  }

  /** The candidates are the open nodes that are not excluded, with their figures. */
  lemma {:induction false} CandidatesAre(v: View, nodes: seq<string>, exclude: seq<string>)
    ensures forall c ::
      (c in Candidates(v, nodes, exclude)
       <==> c.tag in nodes && c.tag !in exclude && Open(v, c.tag)
            && c == Candidate(c.tag, Entry(v.active, c.tag, 0), Entry(v.weights, c.tag, 100), Latency(v, c.tag)))
  {
    if nodes != [] {
      CandidatesAre(v, nodes[..|nodes| - 1], exclude);
      assert nodes == nodes[..|nodes| - 1] + [nodes[|nodes| - 1]];
    }
  }

  /** The first of the candidates with the fewest connections. */
  function LeastLoaded(c: seq<Candidate>): (b: nat)
    requires c != []
    ensures b < |c| && forall i :: 0 <= i < |c| ==> c[b].active <= c[i].active
    ensures forall i :: 0 <= i < b ==> c[b].active < c[i].active
  {
    if |c| == 1 then 0
    else
      var b := LeastLoaded(c[..|c| - 1]);
      if c[|c| - 1].active < c[b].active then |c| - 1 else b
  }

  /** What failover falls back to. */
  function Fallback(v: View, exclude: seq<string>): Option<string> {
    var c := Candidates(v, v.nodes, exclude);
    if c == [] then None else Some(c[LeastLoaded(c)].tag)
  }

  /** A fallback is an open node outside the excluded ones, and no other such node has fewer
      connections; there is none only when no such node exists. */
  lemma {:induction false} FallbackIsBest(v: View, exclude: seq<string>)
    ensures Fallback(v, exclude).Some? ==>
      var tag := Fallback(v, exclude).value;
      && tag in v.nodes && tag !in exclude && Open(v, tag)
      && forall other :: other in v.nodes && other !in exclude && Open(v, other) ==>
           Entry(v.active, tag, 0) <= Entry(v.active, other, 0)
    ensures Fallback(v, exclude).None? <==>
      forall tag :: tag in v.nodes && tag !in exclude ==> !Open(v, tag)
  {
    CandidatesAre(v, v.nodes, exclude);
    var c := Candidates(v, v.nodes, exclude);
    forall tag | tag in v.nodes && tag !in exclude && Open(v, tag)
      ensures Candidate(tag, Entry(v.active, tag, 0), Entry(v.weights, tag, 100), Latency(v, tag)) in c
    {
    }
    if c != [] {
      assert c[LeastLoaded(c)] in c;
    }
  }

  // ----- lowest latency --------------------------------------------------------------

  const INT_MAX := 0x7FFF_FFFF

  /** The smallest positive latency, INT_MAX when there is none. */
  function MinLatency(c: seq<Candidate>): int {
    if c == [] then INT_MAX
    else
      var rest, last := MinLatency(c[..|c| - 1]), c[|c| - 1].latency;
      if last > 0 && last < rest then last else rest
  }

  /** min + 10 in 32 bits; without a positive latency the sum overflows, taken as wrap-around. */
  function LatencyLimit(c: seq<Candidate>): int {
    var sum := MinLatency(c) + 10;
    if sum > INT_MAX then sum - 2 * (INT_MAX + 1) else sum
  }

  function Near(c: seq<Candidate>, limit: int): seq<Candidate> {
    if c == [] then []
    else
      var rest, last := Near(c[..|c| - 1], limit), c[|c| - 1];
      if last.latency <= limit then rest + [last] else rest
  }

  function Fastest(c: seq<Candidate>): string
    requires c != []
  {
    var near := Near(c, LatencyLimit(c));
    if near == [] then c[LeastLoaded(c)].tag else near[LeastLoaded(near)].tag
  }

  lemma {:induction false} NearAre(c: seq<Candidate>, limit: int)
    ensures forall x :: x in Near(c, limit) <==> x in c && x.latency <= limit
  {
    if c != [] {
      NearAre(c[..|c| - 1], limit);
      assert c == c[..|c| - 1] + [c[|c| - 1]];
    }
  }

  lemma {:induction false} MinLatencyIs(c: seq<Candidate>)
    ensures forall x :: x in c && x.latency > 0 ==> MinLatency(c) <= x.latency
    ensures MinLatency(c) < INT_MAX ==> exists x :: x in c && x.latency == MinLatency(c) > 0
  {
    if c != [] {
      MinLatencyIs(c[..|c| - 1]);
      assert c == c[..|c| - 1] + [c[|c| - 1]];
    }
  }

  /** With a measured latency among the candidates, the choice is within 10 of every measured
      one, and no candidate with so low a latency has fewer connections. */
  lemma {:induction false} FastestIs(c: seq<Candidate>)
    requires exists x :: x in c && 0 < x.latency <= INT_MAX - 10
    ensures exists x ::
      (x in c && x.tag == Fastest(c)
       && (forall y :: y in c && y.latency > 0 ==> x.latency <= y.latency + 10)
       && (forall y :: y in c && y.latency <= x.latency ==> x.active <= y.active))
  {
    MinLatencyIs(c);
    NearAre(c, LatencyLimit(c));
    var near := Near(c, LatencyLimit(c));
    var m :| m in c && m.latency == MinLatency(c);
    assert m in near;
    assert near[LeastLoaded(near)] in near;
  }

  lemma {:induction false} NoneMeasured(c: seq<Candidate>)
    requires forall x :: x in c ==> x.latency <= 0
    ensures MinLatency(c) == INT_MAX
  {
    if c != [] {
      NoneMeasured(c[..|c| - 1]);
      assert c[|c| - 1] in c;
    }
  }

  lemma {:induction false} NoneNear(c: seq<Candidate>, limit: int)
    requires forall x :: x in c ==> x.latency > limit
    ensures Near(c, limit) == []
  {
    if c != [] {
      NoneNear(c[..|c| - 1], limit);
      assert c[|c| - 1] in c;
    }
  }

  /** Without a measured latency nobody is near the wrapped limit, and the least loaded is chosen. */
  lemma {:induction false} UnmeasuredIsLeast(c: seq<Candidate>)
    requires c != [] && forall x :: x in c ==> x.latency == 0
    ensures Fastest(c) == c[LeastLoaded(c)].tag
  {
    NoneMeasured(c);
    NoneNear(c, LatencyLimit(c));
  }

  // ----- affinity --------------------------------------------------------------------

  /** Operations of the affinity table, with their times. */
  type History = seq<(IpAffinity.Event, nat)>

  /** The node a client's affinity stands for, if that node is usable. */
  function Preferred(l: IpAffinity.Limits, t: IpAffinity.Table, v: View, ip: string, now: nat): Option<string>
    requires IpAffinity.Linked(t)
  {
    match IpAffinity.Lookup(l, t, ip, now)
    case None => None
    case Some(tag) => if Usable(v, tag) then Some(tag) else None
  }

  /** What was recorded for a client is what the client gets, exactly while the record is not too
      old and the node stays open, whatever is done to the table for other clients in between,
      as long as fewer than `records` of them get a node. */
  lemma {:induction false} RememberedWhileUsable(l: IpAffinity.Limits, v: View, earlier: History, ip: string,
                                                 tag: string, at: nat, others: History, now: nat)
    requires l.records >= 1 && IpAffinity.NoCleanup(earlier) && LruHistory.Foreign(others, ip, tag)
    requires |LruHistory.UpdatedIn(others)| < l.records
    requires IpAffinity.Monotone(earlier + [(IpAffinity.Update(ip, tag), at)] + others)
    ensures
      var all := earlier + [(IpAffinity.Update(ip, tag), at)] + others;
      Preferred(l, IpAffinity.Run(l, all), v, ip, now) == Some(tag)
      <==> WholeSeconds(at, now) <= l.timeout && Open(v, tag)
  {
    LruHistory.Remembered(l, earlier, ip, tag, at, others, now);
  }

  /** The table once the affinity of a client has been looked up and not taken. */
  function AfterMiss(l: IpAffinity.Limits, t: IpAffinity.Table, ip: string, ghost before: nat, now: nat)
    : (m: IpAffinity.Table)
    requires IpAffinity.Kept(l, t, before)
    ensures IpAffinity.Linked(m)
  {
    if IpAffinity.Lookup(l, t, ip, now).Some? then
      IpAffinity.InvalidateLinked(l, t, ip, before);
      IpAffinity.Invalidated(t, ip)
    else t
  }

  // ----- the balancer ----------------------------------------------------------------

  const WORD := 0x1_0000_0000_0000_0000

  function WeightsOf(c: seq<Candidate>): (w: seq<int>)
    ensures |w| == |c| && forall i :: 0 <= i < |c| ==> w[i] == c[i].weight
  {
    if c == [] then [] else WeightsOf(c[..|c| - 1]) + [c[|c| - 1].weight]
  }

  /** How each strategy chooses, given the turn counter and the scheduler's running weights. */
  ghost predicate ByStrategy(strategy: Strategy, c: seq<Candidate>, turns: nat,
                             before: seq<int>, after: seq<int>, tag: string)
    requires c != []
  {
    match strategy
    case RoundRobin => after == before && tag == c[turns % |c|].tag
    case Weighted =>
      exists i :: 0 <= i < |c| && c[i].tag == tag && W.IsCall(before, WeightsOf(c), after, Some(i))
    case LeastConnections => after == before && tag == c[LeastLoaded(c)].tag
    case LowestLatency => after == before && tag == Fastest(c)
  }

  /** What stays as it is during a selection, and what does not. */
  datatype Settings = Settings(strategy: Strategy, affinity: bool, limits: IpAffinity.Limits)

  datatype Balance = Balance(table: IpAffinity.Table, turns: nat, current: seq<int>)

  /** A selection for a client: its affinity while that is usable, else by strategy among the
      candidates, with the choice recorded as the client's new affinity. */
  ghost predicate IsSelection(s: Settings, v: View, ip: string, before: nat, now: nat,
                              b: Balance, after: Balance, choice: Option<Selection>)
    requires s.limits.records >= 1 && IpAffinity.Kept(s.limits, b.table, before)
  {
    var preferred := if s.affinity then Preferred(s.limits, b.table, v, ip, now) else None;
    var missed := if s.affinity then AfterMiss(s.limits, b.table, ip, before, now) else b.table;
    var c := Candidates(v, v.nodes, []);
    if preferred.Some? then
      choice == Some(Selection(preferred.value, true)) && after == b
    else if c == [] then
      choice.None? && after == b.(table := missed)
    else
      && choice.Some? && !choice.value.fromAffinity
      && ByStrategy(s.strategy, c, b.turns, b.current, after.current, choice.value.tag)
      && after.turns == (if s.strategy.RoundRobin? then (b.turns + 1) % WORD else b.turns)
      && after.table == if s.affinity
                        then IpAffinity.Updated(s.limits, missed, ip, choice.value.tag, now) else missed
  }

  /** Whatever is selected is open; without an affinity it is a listed node, and there is none
      exactly when no listed node is open. */
  lemma {:induction false} SelectionIsOpen(s: Settings, v: View, ip: string, before: nat, now: nat,
                                           b: Balance, after: Balance, choice: Option<Selection>)
    requires s.limits.records >= 1 && IpAffinity.Kept(s.limits, b.table, before)
    requires IsSelection(s, v, ip, before, now, b, after, choice)
    ensures choice.Some? ==> Open(v, choice.value.tag)
    ensures choice.Some? && !choice.value.fromAffinity ==> choice.value.tag in v.nodes
    ensures choice.None? ==> forall tag :: tag in v.nodes ==> !Open(v, tag)
  {
    var c := Candidates(v, v.nodes, []);
    CandidatesAre(v, v.nodes, []);
    if choice.None? {
      forall tag | tag in v.nodes ensures !Open(v, tag) {
        assert Candidate(tag, Entry(v.active, tag, 0), Entry(v.weights, tag, 100), Latency(v, tag)) !in c;
      }
    } else if !choice.value.fromAffinity {
      ChosenIsCandidate(s.strategy, c, b.turns, b.current, after.current, choice.value.tag);
    }
  }

  /** The affinity goes first exactly when it is fresh and its node open. */
  lemma AffinityFirst(s: Settings, v: View, ip: string, before: nat, now: nat,
                      b: Balance, after: Balance, choice: Option<Selection>, tag: string)
    requires s.limits.records >= 1 && IpAffinity.Kept(s.limits, b.table, before)
    requires IsSelection(s, v, ip, before, now, b, after, choice)
    ensures choice == Some(Selection(tag, true))
       <==> s.affinity && IpAffinity.Lookup(s.limits, b.table, ip, now) == Some(tag) && Open(v, tag)
  {
  }

  lemma {:induction false} ChosenIsCandidate(strategy: Strategy, c: seq<Candidate>, turns: nat,
                                             before: seq<int>, after: seq<int>, tag: string)
    requires c != [] && ByStrategy(strategy, c, turns, before, after, tag)
    ensures exists x :: x in c && x.tag == tag
  {
    match strategy
    case RoundRobin => assert c[turns % |c|] in c;
    case Weighted =>
      var i :| 0 <= i < |c| && c[i].tag == tag;
      assert c[i] in c;
    case LeastConnections => assert c[LeastLoaded(c)] in c;
    case LowestLatency => FastestIn(c);
  }

  lemma {:induction false} FastestIn(c: seq<Candidate>)
    requires c != []
    ensures exists x :: x in c && x.tag == Fastest(c)
  {
    var near := Near(c, LatencyLimit(c));
    NearAre(c, LatencyLimit(c));
    if near == [] { assert c[LeastLoaded(c)] in c; } else { assert near[LeastLoaded(near)] in near; }
  }

  /** Updates and invalidations of one address. */
  predicate Concerns(steps: History, ip: string) {
    forall i :: 0 <= i < |steps| ==>
      (steps[i].0.Update? || steps[i].0.Invalidate?) && steps[i].0.ip == ip
  }

  lemma {:induction false} MissConcerns(l: IpAffinity.Limits, ip: string, events: History, now: nat)
    returns (steps: History)
    requires l.records >= 1 && IpAffinity.Monotone(events) && IpAffinity.LastTime(events) <= now
    ensures Concerns(steps, ip) && IpAffinity.Monotone(events + steps) && IpAffinity.LastTime(events + steps) <= now
    ensures AfterMiss(l, IpAffinity.Run(l, events), ip, IpAffinity.LastTime(events), now)
         == IpAffinity.Run(l, events + steps)
  {
    steps := [];
    assert events + steps == events;
    if IpAffinity.Lookup(l, IpAffinity.Run(l, events), ip, now).Some? {
      IpAffinity.RunPush(l, events, IpAffinity.Invalidate(ip), now);
      steps := [(IpAffinity.Invalidate(ip), now)];
    }
  }

  lemma Regroup<T>(a: seq<T>, b: seq<T>, x: T)
    ensures a + b + [x] == a + (b + [x])
  {
  }

  lemma ConcernsOneMore(steps: History, ip: string, tag: string, now: nat)
    requires Concerns(steps, ip)
    ensures Concerns(steps + [(IpAffinity.Update(ip, tag), now)], ip)
  {
  }

  lemma {:induction false} UpdateConcerns(l: IpAffinity.Limits, ip: string, tag: string, events: History,
                                          steps: History, now: nat)
    returns (more: History)
    requires l.records >= 1 && IpAffinity.Monotone(events + steps) && IpAffinity.LastTime(events + steps) <= now
    requires Concerns(steps, ip)
    ensures Concerns(more, ip) && IpAffinity.Monotone(events + more)
    ensures IpAffinity.Run(l, events + more)
         == IpAffinity.Updated(l, IpAffinity.Run(l, events + steps), ip, tag, now)
  {
    var e := IpAffinity.Update(ip, tag);
    more := steps + [(e, now)];
    ConcernsOneMore(steps, ip, tag, now);
    IpAffinity.RunPush(l, events + steps, e, now);
    Regroup(events, steps, (e, now));
  }

  /** To the affinity table, a selection is a few operations on its client's address: to every
      other client it is one of the others. */
  lemma {:induction false} SelectionConcernsClient(s: Settings, v: View, ip: string, events: History, now: nat,
                                                   b: Balance, after: Balance, choice: Option<Selection>)
    returns (steps: History)
    requires s.limits.records >= 1 && IpAffinity.Monotone(events) && IpAffinity.LastTime(events) <= now
    requires b.table == IpAffinity.Run(s.limits, events)
    requires IsSelection(s, v, ip, IpAffinity.LastTime(events), now, b, after, choice)
    ensures Concerns(steps, ip) && IpAffinity.Monotone(events + steps)
    ensures after.table == IpAffinity.Run(s.limits, events + steps)
  {
    if !s.affinity || (choice.Some? && choice.value.fromAffinity) {
      steps := [];
      assert events + steps == events;
    } else {
      steps := MissConcerns(s.limits, ip, events, now);
      if choice.Some? {
        steps := UpdateConcerns(s.limits, ip, choice.value.tag, events, steps, now);
      }
    }
  }

  /** Selections and failovers of another client add to what others have done, and to the
      addresses they have updated at most that client's. */
  lemma OneMoreClient(others: History, steps: History, other: string, ip: string, tag: string)
    requires LruHistory.Foreign(others, ip, tag) && Concerns(steps, other) && other != ip
    ensures LruHistory.Foreign(others + steps, ip, tag)
    ensures LruHistory.UpdatedIn(others + steps) <= LruHistory.UpdatedIn(others) + {other}
  {
  }

  /** A node chosen for a client is recorded: what the selection leaves is the table after an
      update for that client and node, the last of all operations. */
  lemma {:induction false} ChoiceRecorded(s: Settings, v: View, ip: string, events: History, now: nat,
                                          b: Balance, after: Balance, choice: Option<Selection>)
    returns (earlier: History)
    requires s.affinity && s.limits.records >= 1 && IpAffinity.Monotone(events) && IpAffinity.LastTime(events) <= now
    requires b.table == IpAffinity.Run(s.limits, events)
    requires IsSelection(s, v, ip, IpAffinity.LastTime(events), now, b, after, choice)
    requires choice.Some? && !choice.value.fromAffinity
    ensures IpAffinity.NoCleanup(events) ==> IpAffinity.NoCleanup(earlier)
    ensures
      var all := earlier + [(IpAffinity.Update(ip, choice.value.tag), now)];
      IpAffinity.Monotone(all) && IpAffinity.LastTime(all) == now && after.table == IpAffinity.Run(s.limits, all)
  {
    var steps := MissConcerns(s.limits, ip, events, now);
    earlier := events + steps;
    IpAffinity.RunPush(s.limits, earlier, IpAffinity.Update(ip, choice.value.tag), now);
  }

  /** A client comes back to the node that was recorded for it, exactly while the record is not
      too old and the node open, whatever selections and failovers of fewer than `records` other
      clients come in between. */
  lemma {:induction false} ComesBack(s: Settings, ip: string, tag: string, earlier: History, at: nat, others: History,
                                     w: View, now: nat, b: Balance, after: Balance, choice: Option<Selection>)
    requires s.affinity && s.limits.records >= 1
    requires
      var all := earlier + [(IpAffinity.Update(ip, tag), at)] + others;
      && IpAffinity.NoCleanup(earlier) && LruHistory.Foreign(others, ip, tag)
      && |LruHistory.UpdatedIn(others)| < s.limits.records
      && IpAffinity.Monotone(all) && b.table == IpAffinity.Run(s.limits, all)
      && IsSelection(s, w, ip, IpAffinity.LastTime(all), now, b, after, choice)
    ensures choice == Some(Selection(tag, true)) <==> WholeSeconds(at, now) <= s.limits.timeout && Open(w, tag)
  {
    RememberedWhileUsable(s.limits, w, earlier, ip, tag, at, others, now);
  }

  /** A client for whom no node was found is remembered no longer. */
  lemma {:induction false} MissForgets(s: Settings, v: View, ip: string, before: nat, now: nat,
                                       b: Balance, after: Balance, choice: Option<Selection>, later: nat)
    requires s.affinity && s.limits.records >= 1 && IpAffinity.Kept(s.limits, b.table, before)
    requires IsSelection(s, v, ip, before, now, b, after, choice) && choice.None? && before <= now <= later
    ensures IpAffinity.Linked(after.table) && IpAffinity.Lookup(s.limits, after.table, ip, later).None?
  {
    if ip in b.table.index {
      var n := IpAffinity.NodeOf(b.table, ip);
      WholeSecondsAre(n.at, now, s.limits.timeout);
      WholeSecondsAre(n.at, later, s.limits.timeout);
    }
  }

  class LoadBalancer {
    const health: Health.HealthChecker
    const affinity: IpAffinity.IpAffinityTable
    const scheduler: W.Scheduler
    var strategy: Strategy
    var affinityEnabled: bool
    var capacity: int
    var active: map<string, int>
    var weights: map<string, int>
    var turns: nat

    ghost function Seen(nodes: seq<string>): View
      reads this, health
    {
      View(nodes, health.nodes, active, weights, capacity)
    }

    ghost function Config(): Settings
      reads this
    {
      Settings(strategy, affinityEnabled, affinity.limits)
    }

    ghost function Now(): Balance
      reads this, affinity, scheduler
    {
      Balance(affinity.Now(), turns, scheduler.current)
    }

    /** The affinity table is well linked, its list fits the limit and is sorted by age. */
    ghost predicate Valid(now: nat)
      reads this, affinity
    {
      affinity.limits.records >= 1 && IpAffinity.Kept(affinity.limits, affinity.Now(), now)
    }

    constructor (health: Health.HealthChecker, affinity: IpAffinity.IpAffinityTable,
                 scheduler: W.Scheduler, strategy: Strategy, affinityEnabled: bool, capacity: int)
      ensures this.health == health && this.affinity == affinity && this.scheduler == scheduler
      ensures this.strategy == strategy && this.affinityEnabled == affinityEnabled
      ensures this.capacity == capacity && active == map[] && weights == map[] && turns == 0
    {
      this.health, this.affinity, this.scheduler := health, affinity, scheduler;
      this.strategy, this.affinityEnabled, this.capacity := strategy, affinityEnabled, capacity;
      active, weights, turns := map[], map[], 0;
    }

    method GetCandidates(nodes: seq<string>, exclude: seq<string>) returns (c: seq<Candidate>)
      ensures c == Candidates(Seen(nodes), nodes, exclude)
    {
      c := [];
      for i := 0 to |nodes|
        invariant c == Candidates(Seen(nodes), nodes[..i], exclude)
      {
        var tag := nodes[i];
        assert nodes[..i + 1][..i] == nodes[..i];
        if tag in exclude { continue; }
        var status := health.GetStatus(tag);
        if status == Health.Unavailable { continue; }
        var conns := ActiveOn(active, tag);
        if conns >= capacity { continue; }
        c := c + [Candidate(tag, conns, WeightOf(weights, tag), Health.InfoOf(health.nodes, tag).latency)];
      }
      assert nodes[..|nodes|] == nodes;
    }

    method DoLeastConnections(c: seq<Candidate>) returns (tag: string)
      requires c != []
      ensures tag == c[LeastLoaded(c)].tag
    {
      var best := 0;
      for i := 1 to |c|
        invariant best < i && best == LeastLoaded(c[..i])
      {
        assert c[..i + 1][..i] == c[..i];
        if c[i].active < c[best].active { best := i; }
      }
      assert c[..|c|] == c;
      return c[best].tag;
    }

    method DoLowestLatency(c: seq<Candidate>) returns (tag: string)
      requires c != []
      ensures tag == Fastest(c)
    {
      var min := INT_MAX;
      for i := 0 to |c|
        invariant min == MinLatency(c[..i])
      {
        assert c[..i + 1][..i] == c[..i];
        if c[i].latency > 0 && c[i].latency < min { min := c[i].latency; }
      }
      assert c[..|c|] == c;
      var limit := if min + 10 > INT_MAX then min + 10 - 2 * (INT_MAX + 1) else min + 10;
      assert limit == LatencyLimit(c);
      var low := [];
      for i := 0 to |c|
        invariant low == Near(c[..i], limit)
      {
        assert c[..i + 1][..i] == c[..i];
        if c[i].latency <= limit { low := low + [c[i]]; }
      }
      if low == [] {
        tag := DoLeastConnections(c);
      } else {
        tag := DoLeastConnections(low);
      }
    }

    method DoWeightedRoundRobin(c: seq<Candidate>) returns (tag: string)
      requires c != []
      modifies scheduler
      ensures exists i ::
        (0 <= i < |c| && c[i].tag == tag
         && W.IsCall(old(scheduler.current), WeightsOf(c), scheduler.current, Some(i)))
    {
      var choice := scheduler.Pick(WeightsOf(c));
      return c[choice.value].tag;
    }

    method Choose(c: seq<Candidate>) returns (tag: string)
      requires c != []
      modifies this`turns, scheduler
      ensures ByStrategy(strategy, c, old(turns), old(scheduler.current), scheduler.current, tag)
      ensures turns == if strategy.RoundRobin? then (old(turns) + 1) % WORD else old(turns)
    {
      match strategy
      case RoundRobin =>
        tag := c[turns % |c|].tag;
        turns := (turns + 1) % WORD;
      case Weighted => tag := DoWeightedRoundRobin(c);
      case LeastConnections => tag := DoLeastConnections(c);
      case LowestLatency => tag := DoLowestLatency(c);
    }

    /** A choice among the candidates, if there are any. */
    method ChooseAny(nodes: seq<string>) returns (tag: Option<string>)
      modifies this`turns, scheduler
      ensures
        var c := Candidates(Seen(nodes), nodes, []);
        if c == [] then tag.None? && turns == old(turns) && scheduler.current == old(scheduler.current)
        else
          && tag.Some?
          && ByStrategy(strategy, c, old(turns), old(scheduler.current), scheduler.current, tag.value)
          && turns == if strategy.RoundRobin? then (old(turns) + 1) % WORD else old(turns)
    {
      var c := GetCandidates(nodes, []);
      if c == [] { return None; }
      var chosen := Choose(c);
      return Some(chosen);
    }

    /** A client's affinity while it is usable; one that is not is dropped. */
    method TakeAffinity(ip: string, nodes: seq<string>, ghost before: nat, now: nat)
      returns (preferred: Option<string>)
      requires Valid(before) && before <= now
      modifies affinity
      ensures Valid(now)
      ensures
        var l, t := affinity.limits, old(affinity.Now());
        preferred == (if affinityEnabled then Preferred(l, t, Seen(nodes), ip, now) else None)
        && affinity.Now() == if affinityEnabled && preferred.None? then AfterMiss(l, t, ip, before, now) else t
    {
      AgedLater(affinity.Now().lru, before, now);
      if affinityEnabled {
        var known := affinity.LookUp(ip, now);
        if known.Some? {
          var status := health.GetStatus(known.value);
          if status != Health.Unavailable {
            if ActiveOn(active, known.value) < capacity {
              return Some(known.value);
            }
          }
          IpAffinity.InvalidateLinked(affinity.limits, affinity.Now(), ip, now);
          affinity.Invalidate(ip);
        }
      }
      return None;
    }

    /** A choice becomes the client's new affinity. */
    method Remember(ip: string, tag: string, now: nat)
      requires Valid(now)
      modifies affinity
      ensures Valid(now)
      ensures affinity.Now() == if affinityEnabled
                                then IpAffinity.Updated(affinity.limits, old(affinity.Now()), ip, tag, now)
                                else old(affinity.Now())
    {
      if affinityEnabled {
        IpAffinity.StepLinked(affinity.limits, affinity.Now(), IpAffinity.Update(ip, tag), now, now);
        affinity.Update(ip, tag, now);
      }
    }

    /** The node for a client: its affinity while that is usable, else by strategy; the choice
        is recorded as the client's new affinity. */
    method SelectNode(ip: string, nodes: seq<string>, ghost before: nat, now: nat)
      returns (choice: Option<Selection>)
      requires Valid(before) && before <= now
      modifies this`turns, affinity, scheduler
      ensures Valid(now)
      ensures IsSelection(Config(), old(Seen(nodes)), ip, before, now, old(Now()), Now(), choice)
      ensures choice.Some? ==> Open(Seen(nodes), choice.value.tag)
      ensures choice.Some? && !choice.value.fromAffinity ==> choice.value.tag in nodes
      ensures choice.None? ==> forall tag :: tag in nodes ==> !Open(Seen(nodes), tag)
    {
      ghost var s, v, b := Config(), Seen(nodes), Now();
      var preferred := TakeAffinity(ip, nodes, before, now);
      if preferred.Some? {
        choice := Some(Selection(preferred.value, true));
      } else {
        var tag := ChooseAny(nodes);
        if tag.None? {
          choice := None;
        } else {
          Remember(ip, tag.value, now);
          choice := Some(Selection(tag.value, false));
        }
      }
      SelectionIsOpen(s, v, ip, before, now, b, Now(), choice);
    }

    method SelectFallbackNode(ip: string, nodes: seq<string>, exclude: seq<string>, ghost before: nat, now: nat)
      returns (choice: Option<string>)
      requires Valid(before) && before <= now
      modifies affinity
      ensures Valid(now)
      ensures choice == Fallback(Seen(nodes), exclude)
      ensures choice.Some? ==> choice.value in nodes && choice.value !in exclude && Open(Seen(nodes), choice.value)
      ensures choice.None? ==> forall tag :: tag in nodes && tag !in exclude ==> !Open(Seen(nodes), tag)
      ensures affinity.Now() == if affinityEnabled && choice.Some?
                                then IpAffinity.Updated(affinity.limits, old(affinity.Now()), ip, choice.value, now)
                                else old(affinity.Now())
    {
      AgedLater(affinity.Now().lru, before, now);
      FallbackIsBest(Seen(nodes), exclude);
      var c := GetCandidates(nodes, exclude);
      if c == [] { return None; }
      var tag := DoLeastConnections(c);
      Remember(ip, tag, now);
      return Some(tag);
    }
  }

  lemma AgedLater(lru: seq<IpAffinity.Node>, before: nat, now: nat)
    requires IpAffinity.Aged(lru, before) && before <= now
    ensures IpAffinity.Aged(lru, now)
  {
  }
}

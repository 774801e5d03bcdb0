/** Node health: the outcomes of probes, and marks set by failover and by node removal, move a
    node between available, unstable and unavailable. */
module Health {

  datatype Status = Available | Unavailable | Unstable

  datatype Info = Info(status: Status, latency: int, consecutive: int, lastCheck: nat,
                       total: int, failed: int)

  type Nodes = map<string, Info>

  const NEW := Info(Available, 0, 0, 0, 0, 0)

  /** What happens to one node. */
  datatype Event = Probe(success: bool, elapsed: int, at: nat) | MarkUnavailable | MarkAvailable

  function Updated(threshold: int, info: Info, e: Event): Info {
    match e
    case Probe(success, elapsed, at) =>
      var seen := info.(lastCheck := at, total := info.total + 1);
      if success then
        seen.(latency := elapsed, consecutive := 0,
              failed := if info.failed - 1 > 0 then info.failed - 1 else 0,
              status := if 0 < threshold then Available else info.status)
      else
        var run := info.consecutive + 1;
        seen.(consecutive := run, failed := info.failed + 1,
              status := if run >= threshold then Unavailable
                        else if run > 0 then Unstable else info.status)
    case MarkUnavailable => info.(status := Unavailable, consecutive := threshold)
    case MarkAvailable => info.(status := Available, consecutive := 0)
  }

  function InfoOf(nodes: Nodes, tag: string): Info {
    if tag in nodes then nodes[tag] else NEW
  }

  function StatusOf(nodes: Nodes, tag: string): Status { InfoOf(nodes, tag).status }

  function After(threshold: int, nodes: Nodes, tag: string, e: Event): Nodes {
    nodes[tag := Updated(threshold, InfoOf(nodes, tag), e)]
  }

  class HealthChecker {
    const threshold: int
    var nodes: Nodes

    constructor (threshold: int)
      ensures nodes == map[] && this.threshold == threshold
    {
      this.threshold := threshold;
      nodes := map[];
    }

    /** A node the manager does not know is not probed. */
    method DoProbe(tag: string, known: bool, success: bool, elapsed: int, now: nat)
      modifies this
      ensures nodes == if known then After(threshold, old(nodes), tag, Probe(success, elapsed, now))
                       else old(nodes)
    {
      if !known { return; }
      var info := InfoOf(nodes, tag);
      info := info.(lastCheck := now);
      info := info.(total := info.total + 1);
      if success {
        info := info.(latency := elapsed);
        info := info.(consecutive := 0);
        info := info.(failed := if info.failed - 1 > 0 then info.failed - 1 else 0);
        if info.consecutive < threshold {
          info := info.(status := Available);
        }
      } else {
        info := info.(consecutive := info.consecutive + 1);
        info := info.(failed := info.failed + 1);
        if info.consecutive >= threshold {
          info := info.(status := Unavailable);
        } else if info.consecutive > 0 {
          info := info.(status := Unstable);
        }
      }
      nodes := nodes[tag := info];
    }

    method MarkNodeUnavailable(tag: string)
      modifies this
      ensures nodes == After(threshold, old(nodes), tag, MarkUnavailable)
    {
      nodes := nodes[tag := InfoOf(nodes, tag).(status := Unavailable, consecutive := threshold)];
    }

    method MarkNodeAvailable(tag: string)
      modifies this
      ensures nodes == After(threshold, old(nodes), tag, MarkAvailable)
    {
      nodes := nodes[tag := InfoOf(nodes, tag).(status := Available, consecutive := 0)];
    }

    method GetStatus(tag: string) returns (status: Status)
      ensures status == StatusOf(nodes, tag)
    {
      if tag !in nodes { return Available; }
      return nodes[tag].status;
    }
  }

  // ----- one node's trace ------------------------------------------------------------

  function Run(threshold: int, trace: seq<Event>): Info {
    if trace == [] then NEW
    else Updated(threshold, Run(threshold, trace[..|trace| - 1]), trace[|trace| - 1])
  }

  predicate Failure(e: Event) { e.Probe? && !e.success }

  /** How many failed probes the trace ends with. */
  function TrailingFailures(trace: seq<Event>): (n: nat)
    ensures n <= |trace|
    ensures forall i :: |trace| - n <= i < |trace| ==> Failure(trace[i])
    ensures n < |trace| ==> !Failure(trace[|trace| - n - 1])
  {
    if trace == [] || !Failure(trace[|trace| - 1]) then 0
    else 1 + TrailingFailures(trace[..|trace| - 1])
  }

  /** Whether the failed probes at the end of the trace follow an explicit mark. */
  predicate MarkedDown(trace: seq<Event>) {
    var n := TrailingFailures(trace);
    n < |trace| && trace[|trace| - n - 1].MarkUnavailable?
  }

  /** The status against the counter. */
  predicate Linked(threshold: int, info: Info) {
    && info.consecutive >= 0
    && info.status == if info.consecutive >= threshold then Unavailable
                      else if info.consecutive > 0 then Unstable else Available
  }

  lemma UpdateLinked(threshold: int, info: Info, e: Event)
    requires threshold >= 1 && Linked(threshold, info)
    ensures Linked(threshold, Updated(threshold, info, e))
  {
  }

  lemma {:induction false} CounterIsTrailing(threshold: int, trace: seq<Event>)
    requires threshold >= 1
    ensures Linked(threshold, Run(threshold, trace))
    ensures Run(threshold, trace).consecutive
         == TrailingFailures(trace) + if MarkedDown(trace) then threshold else 0
  {
    if trace != [] {
      var front, last := trace[..|trace| - 1], trace[|trace| - 1];
      CounterIsTrailing(threshold, front);
      if Failure(last) {
        var n := TrailingFailures(front);
        assert TrailingFailures(trace) == n + 1;
        assert n < |front| ==> trace[|trace| - (n + 1) - 1] == front[|front| - n - 1];
      }
    }
  }

  /** The status is a function of the end of the trace: unavailable when at least `threshold`
      probes have failed in a row or a mark has not been followed by anything better, unstable
      after fewer failures, and available otherwise. */
  lemma {:induction false} StatusIsTrace(threshold: int, trace: seq<Event>)
    requires threshold >= 1
    ensures
      var status, n := Run(threshold, trace).status, TrailingFailures(trace);
      && (status == Unavailable <==> MarkedDown(trace) || n >= threshold)
      && (status == Unstable <==> !MarkedDown(trace) && 1 <= n < threshold)
  {
    CounterIsTrailing(threshold, trace);
  }

  /** For traces of probes alone: unavailable exactly when the last `threshold` all failed. */
  lemma {:induction false} LastProbesFailed(threshold: nat, trace: seq<Event>)
    requires threshold >= 1 && forall i :: 0 <= i < |trace| ==> trace[i].Probe?
    ensures Run(threshold, trace).status == Unavailable
       <==> threshold <= |trace| && forall i :: |trace| - threshold <= i < |trace| ==> !trace[i].success
  {
    StatusIsTrace(threshold, trace);
    var n := TrailingFailures(trace);
    if n < |trace| {
      assert trace[|trace| - n - 1].success;
    }
  }

  predicate TakesDown(e: Event) { Failure(e) || e.MarkUnavailable? }

  /** A failed probe or a mark that nothing has declared over since. */
  ghost predicate HeldDownSince(trace: seq<Event>, i: nat) {
    i < |trace| && TakesDown(trace[i]) && forall j :: i < j < |trace| ==> !trace[j].MarkAvailable?
  }

  ghost predicate HeldDown(trace: seq<Event>) { exists i: nat :: HeldDownSince(trace, i) }

  lemma {:induction false} HeldDownStep(trace: seq<Event>)
    requires trace != []
    ensures
      var front, last := trace[..|trace| - 1], trace[|trace| - 1];
      HeldDown(trace) <==> TakesDown(last) || (HeldDown(front) && !last.MarkAvailable?)
  {
    var n := |trace| - 1;
    forall i: nat | i < n
      ensures HeldDownSince(trace, i) <==> HeldDownSince(trace[..n], i) && !trace[n].MarkAvailable?
    {
      assert forall j :: i < j < n ==> trace[..n][j] == trace[j];
    }
    if TakesDown(trace[n]) { assert HeldDownSince(trace, n); }
    if HeldDown(trace[..n]) && !trace[n].MarkAvailable? {
      var i: nat :| HeldDownSince(trace[..n], i);
      assert HeldDownSince(trace, i);
    }
  }

  /** Without a positive threshold one failure or mark takes a node down, and only a mark brings
      it back: no probe that succeeds does. */
  lemma {:induction false} WithoutThreshold(threshold: int, trace: seq<Event>)
    requires threshold <= 0
    ensures Run(threshold, trace).status == if HeldDown(trace) then Unavailable else Available
    ensures threshold <= Run(threshold, trace).consecutive
  {
    if trace != [] {
      WithoutThreshold(threshold, trace[..|trace| - 1]);
      HeldDownStep(trace);
    }
  }

  // ----- what is noted of the probes -------------------------------------------------

  predicate Success(e: Event) { e.Probe? && e.success }

  function Probes(trace: seq<Event>): nat {
    if trace == [] then 0 else Probes(trace[..|trace| - 1]) + if trace[|trace| - 1].Probe? then 1 else 0
  }

  /** The latency is that of the last probe that succeeded, whatever failed or was marked since. */
  lemma {:induction false} LatencyIs(threshold: int, trace: seq<Event>, i: nat)
    requires i < |trace| && Success(trace[i]) && forall j :: i < j < |trace| ==> !Success(trace[j])
    ensures Run(threshold, trace).latency == trace[i].elapsed
  {
    if i < |trace| - 1 { LatencyIs(threshold, trace[..|trace| - 1], i); }
  }

  lemma {:induction false} NoLatency(threshold: int, trace: seq<Event>)
    requires forall j :: 0 <= j < |trace| ==> !Success(trace[j])
    ensures Run(threshold, trace).latency == 0
  {
    if trace != [] { NoLatency(threshold, trace[..|trace| - 1]); }
  }

  /** All probes are counted, and the last check is the last of them. */
  lemma {:induction false} ProbesNoted(threshold: int, trace: seq<Event>)
    ensures Run(threshold, trace).total == Probes(trace)
    ensures forall i :: 0 <= i < |trace| && trace[i].Probe? && (forall j :: i < j < |trace| ==> !trace[j].Probe?)
              ==> Run(threshold, trace).lastCheck == trace[i].at
  {
    if trace != [] { ProbesNoted(threshold, trace[..|trace| - 1]); }
  }

  // ----- failed_checks ---------------------------------------------------------------

  /** Failures less successes from event j to the end. */
  function Excess(trace: seq<Event>, j: nat): int
    requires j <= |trace|
  {
    if j == |trace| then 0
    else
      var last := trace[|trace| - 1];
      Excess(trace[..|trace| - 1], j) + if !last.Probe? then 0 else if last.success then -1 else 1
  }

  /** The counter that failures raise and successes lower is the largest excess of failures
      over successes in any suffix of the trace, the empty one included. */
  lemma {:induction false} FailedIsLargestExcess(threshold: int, trace: seq<Event>)
    ensures forall j :: 0 <= j <= |trace| ==> Excess(trace, j) <= Run(threshold, trace).failed
    ensures exists j :: 0 <= j <= |trace| && Excess(trace, j) == Run(threshold, trace).failed
  {
    if trace == [] {
      assert Excess(trace, 0) == 0;
    } else {
      var front := trace[..|trace| - 1];
      FailedIsLargestExcess(threshold, front);
      var j :| 0 <= j <= |front| && Excess(front, j) == Run(threshold, front).failed;
      assert Excess(front, |front|) == 0;
      assert Excess(trace, |trace|) == 0;
      assert Excess(trace, if Excess(trace, j) >= 0 then j else |trace|) == Run(threshold, trace).failed;
    }
  }

  // ----- all nodes -------------------------------------------------------------------

  function RunFrom(threshold: int, nodes: Nodes, events: seq<(string, Event)>): Nodes {
    if events == [] then nodes
    else
      var n := |events| - 1;
      After(threshold, RunFrom(threshold, nodes, events[..n]), events[n].0, events[n].1)
  }

  function TraceOf(events: seq<(string, Event)>, tag: string): seq<Event> {
    if events == [] then []
    else
      var rest, last := TraceOf(events[..|events| - 1], tag), events[|events| - 1];
      if last.0 == tag then rest + [last.1] else rest
  }

  /** A node's record depends on its own trace only. */
  lemma {:induction false} NodesAreIndependent(threshold: int, events: seq<(string, Event)>, tag: string)
    ensures InfoOf(RunFrom(threshold, map[], events), tag) == Run(threshold, TraceOf(events, tag))
  {
    if events != [] {
      var front, last := events[..|events| - 1], events[|events| - 1];
      NodesAreIndependent(threshold, front, tag);
      if last.0 == tag {
        var rest := TraceOf(front, tag);
        assert (rest + [last.1])[..|rest|] == rest;
      }
    }
  }

  ghost predicate AllLinked(threshold: int, nodes: Nodes) {
    forall tag :: tag in nodes ==> Linked(threshold, nodes[tag])
  }

  /** Neither a successful probe nor a mark that a node is back. */
  ghost predicate NoRecovery(events: seq<(string, Event)>) {
    forall i :: 0 <= i < |events| ==>
      events[i].1.MarkUnavailable? || Failure(events[i].1)
  }

  lemma {:induction false} StaysLinked(threshold: int, nodes: Nodes, events: seq<(string, Event)>)
    requires threshold >= 1 && AllLinked(threshold, nodes)
    ensures AllLinked(threshold, RunFrom(threshold, nodes, events))
  {
    if events != [] { StaysLinked(threshold, nodes, events[..|events| - 1]); }
  }

  /** Without a recovery a node that is down stays down. */
  lemma {:induction false} StaysDown(threshold: int, nodes: Nodes, events: seq<(string, Event)>, tag: string)
    requires threshold >= 1 && AllLinked(threshold, nodes) && NoRecovery(events)
    requires StatusOf(nodes, tag) == Unavailable
    ensures StatusOf(RunFrom(threshold, nodes, events), tag) == Unavailable
  {
    if events != [] {
      var front := events[..|events| - 1];
      StaysDown(threshold, nodes, front, tag);
      StaysLinked(threshold, nodes, front);
    }
  }
}

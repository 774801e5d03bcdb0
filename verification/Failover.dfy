/** Failover: a node whose connection has failed is marked down, and the client is sent to the
    least loaded of the others, a limited number of times. */
module Failover {
  import opened Wrappers
  import Health
  import IpAffinity
  import opened Clock
  import opened LoadBalancer
  import LruHistory

  const MAX_RETRY := 2

  datatype Redirect = Redirect(tag: string, retries: int)

  /** What a failed connection leads to, with `limit` in place of MAX_RETRY. */
  function OnFailed(limit: int, threshold: int, v: View, failed: string, retries: int): Option<Redirect> {
    if retries >= limit then None
    else
      match Fallback(v.(health := Health.After(threshold, v.health, failed, Health.MarkUnavailable)), [failed])
      case None => None
      case Some(tag) => Some(Redirect(tag, retries + 1))
  }

  class FailoverHandler {
    const balancer: LoadBalancer

    constructor (balancer: LoadBalancer)
      ensures this.balancer == balancer
    {
      this.balancer := balancer;
    }

    method OnConnectionFailed(failed: string, ip: string, retries: int, nodes: seq<string>,
                              ghost before: nat, now: nat)
      returns (next: Option<Redirect>)
      requires balancer.Valid(before) && before <= now
      modifies balancer.health, balancer.affinity
      ensures balancer.Valid(now)
      ensures next == OnFailed(MAX_RETRY, balancer.health.threshold, old(balancer.Seen(nodes)), failed, retries)
      ensures next.Some? <==>
        retries < MAX_RETRY && exists tag :: tag in nodes && tag != failed && Open(old(balancer.Seen(nodes)), tag)
      ensures balancer.health.nodes
           == if retries >= MAX_RETRY then old(balancer.health.nodes)
              else Health.After(balancer.health.threshold, old(balancer.health.nodes), failed, Health.MarkUnavailable)
      ensures balancer.affinity.Now()
           == if next.Some? && balancer.affinityEnabled
              then IpAffinity.Updated(balancer.affinity.limits, old(balancer.affinity.Now()), ip, next.value.tag, now)
              else old(balancer.affinity.Now())
    {
      RedirectsExactly(MAX_RETRY, balancer.health.threshold, balancer.Seen(nodes), failed, retries);
      if retries >= MAX_RETRY {
        AgedLater(balancer.affinity.Now().lru, before, now);
        return None;
      }
      balancer.health.MarkNodeUnavailable(failed);
      var choice := balancer.SelectFallbackNode(ip, nodes, [failed], before, now);
      if choice.None? { return None; }
      return Some(Redirect(choice.value, retries + 1));
    }
  }

  // ----- chains ----------------------------------------------------------------------

  /** One failure in a chain: what was known when the connection to `tag` failed. */
  datatype Attempt = Attempt(tag: string, view: View)

  /** What is known of the nodes' health after the failure has been handled. */
  function Marked(threshold: int, a: Attempt): Health.Nodes {
    Health.After(threshold, a.view.health, a.tag, Health.MarkUnavailable)
  }

  /** b is the failure of the node that a's failure led to. In between, nodes may come, go, fill
      up, empty and fail probes, but none is found or declared to be back. */
  ghost predicate Follows(limit: int, threshold: int, a: Attempt, b: Attempt, retries: int) {
    && OnFailed(limit, threshold, a.view, a.tag, retries) == Some(Redirect(b.tag, retries + 1))
    && exists events: seq<(string, Health.Event)> ::
         (Health.NoRecovery(events)
          && b.view.health == Health.RunFrom(threshold, Marked(threshold, a), events))
  }

  ghost predicate FollowsAt(limit: int, threshold: int, chain: seq<Attempt>, retries: int, i: nat)
    requires i + 1 < |chain|
  {
    Follows(limit, threshold, chain[i], chain[i + 1], retries + i)
  }

  ghost predicate IsChain(limit: int, threshold: int, chain: seq<Attempt>, retries: int) {
    && chain != [] && Health.AllLinked(threshold, chain[0].view.health)
    && forall i: nat :: i + 1 < |chain| ==> FollowsAt(limit, threshold, chain, retries, i)
  }

  lemma MarkedLinked(threshold: int, a: Attempt)
    requires threshold >= 1 && Health.AllLinked(threshold, a.view.health)
    ensures Health.AllLinked(threshold, Marked(threshold, a))
    ensures Health.StatusOf(Marked(threshold, a), a.tag) == Health.Unavailable
    ensures forall tag :: Health.StatusOf(a.view.health, tag) == Health.Unavailable ==>
      Health.StatusOf(Marked(threshold, a), tag) == Health.Unavailable
  {
  }

  /** Down nodes stay down from one failure of the chain to the next. */
  lemma {:induction false} DownInNext(limit: int, threshold: int, a: Attempt, b: Attempt, retries: int, tag: string)
    requires threshold >= 1 && Health.AllLinked(threshold, a.view.health)
    requires Follows(limit, threshold, a, b, retries)
    ensures Health.AllLinked(threshold, b.view.health)
    ensures tag == a.tag || Health.StatusOf(a.view.health, tag) == Health.Unavailable ==>
      Health.StatusOf(b.view.health, tag) == Health.Unavailable
  {
    var events: seq<(string, Health.Event)> :| Health.NoRecovery(events)
      && b.view.health == Health.RunFrom(threshold, Marked(threshold, a), events);
    MarkedLinked(threshold, a);
    Health.StaysLinked(threshold, Marked(threshold, a), events);
    if tag == a.tag || Health.StatusOf(a.view.health, tag) == Health.Unavailable {
      Health.StaysDown(threshold, Marked(threshold, a), events, tag);
    }
  }

  /** Every node tried before j is down when the connection to the j-th fails. */
  lemma {:induction false} TriedAreDown(limit: int, threshold: int, chain: seq<Attempt>, retries: int, i: nat, j: nat)
    requires threshold >= 1 && IsChain(limit, threshold, chain, retries) && j < |chain|
    ensures Health.AllLinked(threshold, chain[j].view.health)
    ensures i < j ==> Health.StatusOf(chain[j].view.health, chain[i].tag) == Health.Unavailable
  {
    if j > 0 {
      TriedAreDown(limit, threshold, chain, retries, i, j - 1);
      assert FollowsAt(limit, threshold, chain, retries, j - 1);
      if i < j {
        DownInNext(limit, threshold, chain[j - 1], chain[j], retries + j - 1, chain[i].tag);
      } else {
        DownInNext(limit, threshold, chain[j - 1], chain[j], retries + j - 1, "");
      }
    }
  }

  /** A node other than the failed one is as open after the mark as before. */
  lemma OthersAsOpen(threshold: int, v: View, failed: string)
    ensures
      var w := v.(health := Health.After(threshold, v.health, failed, Health.MarkUnavailable));
      !Open(w, failed) && forall tag :: tag != failed ==> (Open(w, tag) <==> Open(v, tag))
  {
  }

  /** A failure leads to another open node exactly while retries are left and there is one. */
  lemma {:induction false} RedirectsExactly(limit: int, threshold: int, v: View, failed: string, retries: int)
    ensures OnFailed(limit, threshold, v, failed, retries).Some?
       <==> retries < limit && exists tag :: tag in v.nodes && tag != failed && Open(v, tag)
  {
    FallbackIsBest(v.(health := Health.After(threshold, v.health, failed, Health.MarkUnavailable)), [failed]);
    OthersAsOpen(threshold, v, failed);
  }

  /** What it leads to is open, is not the failed node, and is the least loaded of such nodes. */
  lemma {:induction false} NextIsBest(limit: int, threshold: int, v: View, failed: string, retries: int)
    requires OnFailed(limit, threshold, v, failed, retries).Some?
    ensures
      var next := OnFailed(limit, threshold, v, failed, retries).value;
      && retries < limit && next.retries == retries + 1
      && next.tag in v.nodes && next.tag != failed && Open(v, next.tag)
      && forall other :: other in v.nodes && other != failed && Open(v, other) ==>
           Entry(v.active, next.tag, 0) <= Entry(v.active, other, 0)
  {
    FallbackIsBest(v.(health := Health.After(threshold, v.health, failed, Health.MarkUnavailable)), [failed]);
    OthersAsOpen(threshold, v, failed);
  }

  /** A chain of failovers never goes back to a node it has tried, whatever the retry limit. */
  lemma {:induction false} NeverRevisits(limit: int, threshold: int, chain: seq<Attempt>, retries: int, i: nat, j: nat)
    requires threshold >= 1 && IsChain(limit, threshold, chain, retries) && i < j < |chain|
    ensures chain[i].tag != chain[j].tag
  {
    var a := chain[j - 1];
    assert FollowsAt(limit, threshold, chain, retries, j - 1);
    assert Follows(limit, threshold, a, chain[j], retries + j - 1);
    TriedAreDown(limit, threshold, chain, retries, i, j - 1);
    NextIsOther(limit, threshold, a.view, a.tag, retries + j - 1, chain[i].tag);
  }

  lemma {:induction false} NextIsOther(limit: int, threshold: int, v: View, failed: string, retries: int, down: string)
    requires OnFailed(limit, threshold, v, failed, retries).Some?
    requires down == failed || Health.StatusOf(v.health, down) == Health.Unavailable
    ensures OnFailed(limit, threshold, v, failed, retries).value.tag != down
  {
    NextIsBest(limit, threshold, v, failed, retries);
  }

  /** A chain that starts with `retries` used has at most limit - retries redirections, and its
      last failure finds no further node once they are used up. */
  lemma {:induction false} ChainStops(limit: int, threshold: int, chain: seq<Attempt>, retries: int)
    requires IsChain(limit, threshold, chain, retries)
    ensures |chain| > 1 ==> |chain| - 1 <= limit - retries
    ensures retries + |chain| - 1 >= limit ==>
      OnFailed(limit, threshold, chain[|chain| - 1].view, chain[|chain| - 1].tag, retries + |chain| - 1).None?
  {
    if |chain| > 1 {
      var a := chain[|chain| - 2];
      assert FollowsAt(limit, threshold, chain, retries, |chain| - 2);
      assert Follows(limit, threshold, a, chain[|chain| - 1], retries + |chain| - 2);
    }
  }

  /** A chain that has come to its end before the retries are used up has left no open node. */
  lemma {:induction false} EndsForWantOfNodes(limit: int, threshold: int, chain: seq<Attempt>, retries: int)
    requires IsChain(limit, threshold, chain, retries) && retries + |chain| - 1 < limit
    ensures
      var last := chain[|chain| - 1];
      OnFailed(limit, threshold, last.view, last.tag, retries + |chain| - 1).None?
      <==> forall tag :: tag in last.view.nodes && tag != last.tag ==> !Open(last.view, tag)
  {
    var last := chain[|chain| - 1];
    RedirectsExactly(limit, threshold, last.view, last.tag, retries + |chain| - 1);
  }

  /** After a failover with affinities on, the client's next selection goes back to the node it
      was redirected to, exactly while the record is not too old and the node open, whatever
      selections and failovers of fewer than `records` other clients come in between. */
  lemma {:induction false} ClientStays(limit: int, threshold: int, s: Settings, v: View, failed: string, retries: int,
                                       ip: string, earlier: History, at: nat, others: History, w: View, now: nat,
                                       b: Balance, after: Balance, choice: Option<Selection>)
    requires OnFailed(limit, threshold, v, failed, retries).Some? && s.affinity && s.limits.records >= 1
    requires
      var tag := OnFailed(limit, threshold, v, failed, retries).value.tag;
      var all := earlier + [(IpAffinity.Update(ip, tag), at)] + others;
      && IpAffinity.NoCleanup(earlier) && LruHistory.Foreign(others, ip, tag)
      && |LruHistory.UpdatedIn(others)| < s.limits.records
      && IpAffinity.Monotone(all) && b.table == IpAffinity.Run(s.limits, all)
      && IsSelection(s, w, ip, IpAffinity.LastTime(all), now, b, after, choice)
    ensures
      var tag := OnFailed(limit, threshold, v, failed, retries).value.tag;
      choice == Some(Selection(tag, true)) <==> WholeSeconds(at, now) <= s.limits.timeout && Open(w, tag)
  {
    var tag := OnFailed(limit, threshold, v, failed, retries).value.tag;
    ComesBack(s, ip, tag, earlier, at, others, w, now, b, after, choice);
  }
}

/** What the strategies of the load balancer do over successive selections: exact proportions for
    the weighted one, turns for round robin, and the least of what is on record for the others. */
module Fairness {
  import opened Wrappers
  import opened LoadBalancer
  import IpAffinity
  import W = WeightedRoundRobin

  // ----- selections in a row ---------------------------------------------------------

  /** A selection without affinities, over fixed lists. */
  ghost predicate Selects(s: Settings, v: View, client: (string, nat), b: Balance, after: Balance,
                          choice: Option<Selection>)
  {
    && s.limits.records >= 1 && IpAffinity.Kept(s.limits, b.table, 0)
    && IsSelection(s, v, client.0, 0, client.1, b, after, choice)
  }

  ghost predicate SelectsAt(s: Settings, v: View, clients: seq<(string, nat)>, run: seq<Balance>,
                            choices: seq<Option<Selection>>, n: nat)
    requires |run| == |clients| + 1 == |choices| + 1 && n < |clients|
  {
    Selects(s, v, clients[n], run[n], run[n + 1], choices[n])
  }

  /** Selections of a new balancer for any clients, one after the other. */
  ghost predicate IsRow(s: Settings, v: View, clients: seq<(string, nat)>, run: seq<Balance>,
                        choices: seq<Option<Selection>>)
  {
    && |run| == |clients| + 1 == |choices| + 1
    && !s.affinity && run[0].current == [] && run[0].turns == 0
    && forall n :: 0 <= n < |clients| ==> SelectsAt(s, v, clients, run, choices, n)
  }

  /** How many of the choices are this node. */
  function Returned(choices: seq<Option<Selection>>, tag: string): nat {
    if choices == [] then 0
    else
      var last := choices[|choices| - 1];
      Returned(choices[..|choices| - 1], tag) + if last.Some? && last.value.tag == tag then 1 else 0
  }

  /** The weights of the open nodes, 100 where none is set, add up to this. */
  function TotalWeight(v: View, nodes: seq<string>): int {
    if nodes == [] then 0
    else
      var tag := nodes[|nodes| - 1];
      TotalWeight(v, nodes[..|nodes| - 1]) + if Open(v, tag) then Entry(v.weights, tag, 100) else 0
  }

  // ----- counting by position and by name --------------------------------------------

  function Occurs(c: seq<Candidate>, tag: string): nat {
    if c == [] then 0 else Occurs(c[..|c| - 1], tag) + if c[|c| - 1].tag == tag then 1 else 0
  }

  /** How many of the picks fall on the first k candidates and are this node. */
  function Tally(picks: seq<nat>, c: seq<Candidate>, k: nat, tag: string): nat
    requires forall n :: 0 <= n < |picks| ==> picks[n] < |c|
  {
    if picks == [] then 0
    else
      var last := picks[|picks| - 1];
      Tally(picks[..|picks| - 1], c, k, tag) + if last < k && c[last].tag == tag then 1 else 0
  }

  lemma {:induction false} TallyStep(picks: seq<nat>, c: seq<Candidate>, k: nat, tag: string)
    requires k < |c| && forall n :: 0 <= n < |picks| ==> picks[n] < |c|
    ensures Tally(picks, c, k + 1, tag) == Tally(picks, c, k, tag) + if c[k].tag == tag then W.Count(picks, k) else 0
  {
    if picks != [] { TallyStep(picks[..|picks| - 1], c, k, tag); }
  }

  lemma {:induction false} TallyNone(picks: seq<nat>, c: seq<Candidate>, tag: string)
    requires forall n :: 0 <= n < |picks| ==> picks[n] < |c|
    ensures Tally(picks, c, 0, tag) == 0
  {
    if picks != [] { TallyNone(picks[..|picks| - 1], c, tag); }
  }

  /** When every candidate of this name is picked equally often. */
  lemma {:induction false} TallyIs(picks: seq<nat>, c: seq<Candidate>, k: nat, tag: string, each: nat)
    requires k <= |c| && forall n :: 0 <= n < |picks| ==> picks[n] < |c|
    requires forall i :: 0 <= i < |c| && c[i].tag == tag ==> W.Count(picks, i) == each
    ensures Tally(picks, c, k, tag) == each * Occurs(c[..k], tag)
  {
    if k == 0 {
      TallyNone(picks, c, tag);
    } else {
      TallyIs(picks, c, k - 1, tag, each);
      TallyStep(picks, c, k - 1, tag);
      assert c[..k][..k - 1] == c[..k - 1];
      OneMore(each, Occurs(c[..k - 1], tag));
    }
  }

  lemma OneMore(each: nat, n: nat)
    ensures each * (n + 1) == each * n + each
  {
  }

  /** Each choice is the candidate at its pick. */
  ghost predicate PickedBy(c: seq<Candidate>, picks: seq<nat>, choices: seq<Option<Selection>>) {
    && |picks| == |choices|
    && forall n :: 0 <= n < |picks| ==>
         picks[n] < |c| && choices[n].Some? && choices[n].value.tag == c[picks[n]].tag
  }

  lemma {:induction false} ReturnedIsTally(c: seq<Candidate>, picks: seq<nat>,
                                           choices: seq<Option<Selection>>, tag: string)
    requires PickedBy(c, picks, choices)
    ensures Returned(choices, tag) == Tally(picks, c, |c|, tag)
  {
    if picks != [] {
      ReturnedIsTally(c, picks[..|picks| - 1], choices[..|choices| - 1], tag);
    }
  }

  lemma CandidatesPush(v: View, nodes: seq<string>)
    requires nodes != []
    ensures
      var c, last := Candidates(v, nodes[..|nodes| - 1], []), nodes[|nodes| - 1];
      Candidates(v, nodes, []) == if Open(v, last) then c + [CandidateOf(v, last)] else c
  {
  }

  lemma {:induction false} OccursPush(c: seq<Candidate>, x: Candidate, tag: string)
    ensures Occurs(c + [x], tag) == Occurs(c, tag) + if x.tag == tag then 1 else 0
  {
    assert (c + [x])[..|c|] == c;
  }

  lemma {:induction false} MultisetPush(front: seq<string>, last: string, tag: string)
    ensures multiset(front + [last])[tag] == multiset(front)[tag] + if last == tag then 1 else 0
  {
  }

  lemma NoCandidates(v: View, nodes: seq<string>, tag: string)
    requires nodes == []
    ensures Occurs(Candidates(v, nodes, []), tag) == 0 && multiset(nodes)[tag] == 0
  {
  }

  /** A node is a candidate as often as it is listed, if it is open. */
  lemma {:induction false} CandidateOccurs(v: View, nodes: seq<string>, tag: string)
    ensures Occurs(Candidates(v, nodes, []), tag) == if Open(v, tag) then multiset(nodes)[tag] else 0
  {
    if nodes == [] {
      NoCandidates(v, nodes, tag);
    } else {
      var front, last := nodes[..|nodes| - 1], nodes[|nodes| - 1];
      CandidateOccurs(v, front, tag);
      CandidatesPush(v, nodes);
      OccursPush(Candidates(v, front, []), CandidateOf(v, last), tag);
      assert multiset(nodes)[tag] == multiset(front)[tag] + if last == tag then 1 else 0 by {
        MultisetPush(front, last, tag);
        assert nodes == front + [last];
      }
    }
  }

  lemma {:induction false} CandidateAt(v: View, nodes: seq<string>, i: nat)
    requires i < |Candidates(v, nodes, [])|
    ensures
      var c := Candidates(v, nodes, [])[i];
      Open(v, c.tag) && c.tag in nodes && c.weight == Entry(v.weights, c.tag, 100)
  {
    CandidatesAre(v, nodes, []);
    assert Candidates(v, nodes, [])[i] in Candidates(v, nodes, []);
  }

  lemma {:induction false} WindowReturned(v: View, picks: seq<nat>, choices: seq<Option<Selection>>,
                                          tag: string, each: nat)
    requires PickedBy(Candidates(v, v.nodes, []), picks, choices)
    requires forall i :: 0 <= i < |Candidates(v, v.nodes, [])| && Candidates(v, v.nodes, [])[i].tag == tag ==>
      W.Count(picks, i) == each
    ensures Returned(choices, tag) == if Open(v, tag) then each * multiset(v.nodes)[tag] else 0
  {
    var c := Candidates(v, v.nodes, []);
    ReturnedIsTally(c, picks, choices, tag);
    TallyIs(picks, c, |c|, tag, each);
    assert c[..|c|] == c;
    CandidateOccurs(v, v.nodes, tag);
  }

  // ----- weighted round robin --------------------------------------------------------

  lemma {:induction false} WeightsPush(c: seq<Candidate>, x: Candidate)
    ensures W.Sum(WeightsOf(c + [x])) == W.Sum(WeightsOf(c)) + x.weight
  {
    assert (c + [x])[..|c|] == c;
    var w := WeightsOf(c + [x]);
    assert w[..|c|] == WeightsOf(c);
  }

  lemma NoWeights(v: View)
    ensures W.Sum(WeightsOf(Candidates(v, [], []))) == 0
  {
  }

  lemma {:induction false} SumOfWeights(v: View, nodes: seq<string>)
    ensures W.Sum(WeightsOf(Candidates(v, nodes, []))) == TotalWeight(v, nodes)
  {
    if nodes == [] {
      NoWeights(v);
    } else {
      var front, last := nodes[..|nodes| - 1], nodes[|nodes| - 1];
      var c := Candidates(v, front, []);
      SumOfWeights(v, front);
      CandidatesPush(v, nodes);
      WeightsPush(c, CandidateOf(v, last));
    }
  }

  ghost predicate WeightedPick(c: seq<Candidate>, b: Balance, after: Balance, choice: Option<Selection>, pick: nat) {
    && pick < |c| && choice.Some? && choice.value.tag == c[pick].tag
    && W.IsCall(b.current, WeightsOf(c), after.current, Some(pick))
  }

  lemma {:induction false} SelectionPicks(s: Settings, v: View, client: (string, nat), b: Balance, after: Balance,
                                          choice: Option<Selection>)
    returns (pick: nat)
    requires Selects(s, v, client, b, after, choice) && !s.affinity && s.strategy.Weighted?
    requires Candidates(v, v.nodes, []) != []
    ensures WeightedPick(Candidates(v, v.nodes, []), b, after, choice, pick)
  {
    var c := Candidates(v, v.nodes, []);
    pick :| 0 <= pick < |c| && c[pick].tag == choice.value.tag
      && W.IsCall(b.current, WeightsOf(c), after.current, Some(pick));
  }

  ghost predicate WeightedPickAt(c: seq<Candidate>, run: seq<Balance>, choices: seq<Option<Selection>>,
                                 picks: seq<nat>, n: nat)
    requires |run| > |choices| && n < |picks| <= |choices|
  {
    WeightedPick(c, run[n], run[n + 1], choices[n], picks[n])
  }

  lemma {:induction false} RowPicks(s: Settings, v: View, clients: seq<(string, nat)>, run: seq<Balance>,
                                    choices: seq<Option<Selection>>, k: nat)
    returns (picks: seq<nat>)
    requires IsRow(s, v, clients, run, choices) && s.strategy.Weighted? && k <= |choices|
    requires Candidates(v, v.nodes, []) != []
    ensures |picks| == k
    ensures forall n :: 0 <= n < k ==> WeightedPickAt(Candidates(v, v.nodes, []), run, choices, picks, n)
  {
    if k == 0 {
      picks := [];
    } else {
      var before := RowPicks(s, v, clients, run, choices, k - 1);
      assert SelectsAt(s, v, clients, run, choices, k - 1);
      var pick := SelectionPicks(s, v, clients[k - 1], run[k - 1], run[k], choices[k - 1]);
      picks := before + [pick];
      forall n | 0 <= n < k ensures WeightedPickAt(Candidates(v, v.nodes, []), run, choices, picks, n) {
        if n < k - 1 { assert WeightedPickAt(Candidates(v, v.nodes, []), run, choices, before, n); }
      }
    }
  }

  function Currents(run: seq<Balance>): (v: seq<seq<int>>)
    ensures |v| == |run| && forall n :: 0 <= n < |run| ==> v[n] == run[n].current
  {
    seq(|run|, n requires 0 <= n < |run| => run[n].current)
  }

  function Repeated(w: seq<int>, n: nat): (calls: seq<seq<int>>)
    ensures |calls| == n && forall i :: 0 <= i < n ==> calls[i] == w
  {
    seq(n, _ => w)
  }

  function Somes(picks: seq<nat>): (o: seq<Option<nat>>)
    ensures |o| == |picks| && forall n :: 0 <= n < |picks| ==> o[n] == Some(picks[n])
  {
    seq(|picks|, n requires 0 <= n < |picks| => Some(picks[n]))
  }

  lemma {:induction false} PicksAreRun(c: seq<Candidate>, run: seq<Balance>, choices: seq<Option<Selection>>,
                                       picks: seq<nat>)
    requires |run| == |choices| + 1 && |picks| == |choices| && run[0].current == []
    requires forall n :: 0 <= n < |picks| ==> WeightedPickAt(c, run, choices, picks, n)
    ensures W.IsRun(Repeated(WeightsOf(c), |picks|), Currents(run), Somes(picks))
    ensures W.Chosen(Somes(picks)) == picks
    ensures PickedBy(c, picks, choices)
  {
    var calls, vectors, o := Repeated(WeightsOf(c), |picks|), Currents(run), Somes(picks);
    forall n {:trigger W.IsCall(vectors[n], calls[n], vectors[n + 1], o[n])} | 0 <= n < |calls|
      ensures W.IsCall(vectors[n], calls[n], vectors[n + 1], o[n])
    {
      assert WeightedPickAt(c, run, choices, picks, n);
    }
    forall n | 0 <= n < |picks|
      ensures picks[n] < |c| && choices[n].Some? && choices[n].value.tag == c[picks[n]].tag
    {
      assert WeightedPickAt(c, run, choices, picks, n);
    }
  }

  lemma {:induction false} CandidateWeights(v: View, nodes: seq<string>, total: nat)
    requires forall node :: node in nodes && Open(v, node) ==> Entry(v.weights, node, 100) >= 0
    requires TotalWeight(v, nodes) == total > 0
    ensures W.Weights(WeightsOf(Candidates(v, nodes, [])), total) && Candidates(v, nodes, []) != []
  {
    var c := Candidates(v, nodes, []);
    SumOfWeights(v, nodes);
    forall i | 0 <= i < |c| ensures WeightsOf(c)[i] >= 0 { CandidateAt(v, nodes, i); }
    assert W.Sum([]) == 0 && (c == [] ==> WeightsOf(c) == []);
  }

  /** In a window, each candidate is picked as often as its weight says. */
  lemma {:induction false} WindowCounts(c: seq<Candidate>, run: seq<Balance>, choices: seq<Option<Selection>>,
                                        picks: seq<nat>, from: nat, total: nat, i: nat)
    requires |run| == |choices| + 1 && |picks| == |choices| && run[0].current == []
    requires forall n :: 0 <= n < |picks| ==> WeightedPickAt(c, run, choices, picks, n)
    requires W.Weights(WeightsOf(c), total) && from + total <= |choices| && i < |c|
    ensures W.Count(picks[from..from + total], i) == c[i].weight
  {
    PicksAreRun(c, run, choices, picks);
    W.FairService(WeightsOf(c), total, Repeated(WeightsOf(c), |picks|), Currents(run), Somes(picks), i, from);
  }

  lemma {:induction false} WindowPicked(c: seq<Candidate>, picks: seq<nat>, choices: seq<Option<Selection>>,
                                        from: nat, until: nat)
    requires PickedBy(c, picks, choices) && from <= until <= |picks|
    ensures PickedBy(c, picks[from..until], choices[from..until])
  {
  }

  /** Exact fairness of the balancer: with fixed lists, health, loads and weights, any window of as
      many successive selections as the open nodes' weights add up to returns each open node as
      often as its weight says, and no other node. */
  lemma {:induction false} WeightedFair(s: Settings, v: View, clients: seq<(string, nat)>, run: seq<Balance>,
                                        choices: seq<Option<Selection>>, from: nat, total: nat, tag: string)
    requires IsRow(s, v, clients, run, choices) && s.strategy.Weighted?
    requires forall node :: node in v.nodes && Open(v, node) ==> Entry(v.weights, node, 100) >= 0
    requires TotalWeight(v, v.nodes) == total > 0 && from + total <= |choices|
    ensures Returned(choices[from..from + total], tag)
         == if Open(v, tag) && tag in v.nodes then Entry(v.weights, tag, 100) * multiset(v.nodes)[tag] else 0
  {
    var c := Candidates(v, v.nodes, []);
    CandidateWeights(v, v.nodes, total);
    var picks := RowPicks(s, v, clients, run, choices, |choices|);
    PicksAreRun(c, run, choices, picks);
    WindowPicked(c, picks, choices, from, from + total);
    var window := picks[from..from + total];
    var each: nat := if Open(v, tag) && tag in v.nodes then Entry(v.weights, tag, 100) else 0;
    forall i: nat | i < |c| && c[i].tag == tag ensures W.Count(window, i) == each {
      CandidateAt(v, v.nodes, i);
      WindowCounts(c, run, choices, picks, from, total, i);
    }
    WindowReturned(v, window, choices[from..from + total], tag, each);
    assert tag !in v.nodes ==> multiset(v.nodes)[tag] == 0;
  }

  // ----- round robin -----------------------------------------------------------------

  /** m successive turns from a on. */
  function Turns(a: nat, m: nat, k: nat): (p: seq<nat>)
    requires m > 0
    ensures |p| == k && forall n :: 0 <= n < k ==> p[n] == (a + n) % m
  {
    seq(k, n requires 0 <= n < k => (a + n) % m)
  }

  lemma {:induction false} CountPush(p: seq<nat>, x: nat, i: nat)
    ensures W.Count(p + [x], i) == W.Count(p, i) + if x == i then 1 else 0
  {
    assert (p + [x])[..|p|] == p;
  }

  lemma {:induction false} CountFirst(x: nat, p: seq<nat>, i: nat)
    ensures W.Count([x] + p, i) == W.Count(p, i) + if x == i then 1 else 0
  {
    if p == [] {
      assert [x] + p == [] + [x];
      CountPush([], x, i);
    } else {
      var front, last := p[..|p| - 1], p[|p| - 1];
      CountFirst(x, front, i);
      CountPush([x] + front, last, i);
      CountPush(front, last, i);
      assert [x] + p == [x] + front + [last] && p == front + [last];
    }
  }

  /** A full turn has every index once, wherever it starts. */
  lemma {:induction false} FullTurnOnce(a: nat, m: nat, i: nat)
    requires i < m
    ensures W.Count(Turns(a, m, m), i) == 1
  {
    if a == 0 {
      FirstTurn(m, m, i);
    } else {
      FullTurnOnce(a - 1, m, i);
      var rest := Turns(a, m, m - 1);
      NextTurn(a, m);
      assert Turns(a - 1, m, m) == [(a - 1) % m] + rest;
      assert Turns(a, m, m) == rest + [(a + m - 1) % m];
      CountFirst((a - 1) % m, rest, i);
      CountPush(rest, (a + m - 1) % m, i);
    }
  }

  lemma {:induction false} NextTurn(a: nat, m: nat)
    requires a >= 1 && m > 0
    ensures (a + m - 1) % m == (a - 1) % m
  {
    Wraps(a - 1, m);
  }

  lemma {:induction false} Wraps(a: nat, m: nat)
    requires m > 0
    ensures (a + m) % m == a % m
  {
    var q, r := a / m, a % m;
    assert a == m * q + r;
    Quotient(a + m, m, q + 1, r);
    Quotient(a, m, q, r);
  }

  lemma {:induction false} Quotient(a: nat, m: nat, q: nat, r: nat)
    requires a == m * q + r && r < m
    ensures a % m == r
  {
    var d := a / m;
    assert a == m * d + a % m;
    Multiples(m, d, q);
    Multiples(m, q, d);
  }

  lemma {:induction false} Multiples(m: nat, d: nat, q: nat)
    ensures d < q ==> m * d + m <= m * q
  {
    if d < q {
      W.Distribute(m, d, 1);
      W.Distribute(m, d + 1, q - d - 1);
      assert d + 1 + (q - d - 1) == q;
    }
  }

  lemma {:induction false} FirstTurn(m: nat, k: nat, i: nat)
    requires k <= m && m > 0
    ensures W.Count(Turns(0, m, k), i) == if i < k then 1 else 0
  {
    if k > 0 {
      FirstTurn(m, k - 1, i);
      Quotient(k - 1, m, 0, k - 1);
      assert Turns(0, m, k) == Turns(0, m, k - 1) + [k - 1];
      CountPush(Turns(0, m, k - 1), k - 1, i);
    }
  }

  lemma OneTurn(s: Settings, v: View, client: (string, nat), b: Balance, after: Balance, choice: Option<Selection>)
    requires Selects(s, v, client, b, after, choice) && !s.affinity && s.strategy.RoundRobin?
    requires Candidates(v, v.nodes, []) != []
    ensures choice.Some?
    ensures choice.value.tag == Candidates(v, v.nodes, [])[b.turns % |Candidates(v, v.nodes, [])|].tag
    ensures after.turns == (b.turns + 1) % WORD
  {
  }

  lemma NoWrap(n: nat)
    requires n < WORD
    ensures n % WORD == n
  {
  }

  /** The turn counter counts the selections. */
  lemma {:induction false} TurnsAre(s: Settings, v: View, clients: seq<(string, nat)>, run: seq<Balance>,
                                    choices: seq<Option<Selection>>, n: nat)
    requires IsRow(s, v, clients, run, choices) && s.strategy.RoundRobin?
    requires Candidates(v, v.nodes, []) != [] && n <= |choices| < WORD
    ensures run[n].turns == n
    ensures n < |choices| ==>
      choices[n].Some? && choices[n].value.tag == Candidates(v, v.nodes, [])[n % |Candidates(v, v.nodes, [])|].tag
  {
    if n > 0 {
      TurnsAre(s, v, clients, run, choices, n - 1);
      assert SelectsAt(s, v, clients, run, choices, n - 1);
      OneTurn(s, v, clients[n - 1], run[n - 1], run[n], choices[n - 1]);
      NoWrap(n);
    }
    if n < |choices| {
      assert SelectsAt(s, v, clients, run, choices, n);
      OneTurn(s, v, clients[n], run[n], run[n + 1], choices[n]);
    }
  }

  /** How many entries of the list are open. */
  function OpenCount(v: View, nodes: seq<string>): nat {
    if nodes == [] then 0
    else OpenCount(v, nodes[..|nodes| - 1]) + if Open(v, nodes[|nodes| - 1]) then 1 else 0
  }

  lemma {:induction false} CandidateCount(v: View, nodes: seq<string>)
    ensures |Candidates(v, nodes, [])| == OpenCount(v, nodes)
  {
    if nodes != [] {
      CandidateCount(v, nodes[..|nodes| - 1]);
      CandidatesPush(v, nodes);
    }
  }

  /** As long as the counter does not wrap, any window of as many selections as there are open
      nodes returns each of them once for each time it is listed. */
  lemma {:induction false} TurnsFair(s: Settings, v: View, clients: seq<(string, nat)>, run: seq<Balance>,
                                     choices: seq<Option<Selection>>, from: nat, tag: string)
    requires IsRow(s, v, clients, run, choices) && s.strategy.RoundRobin? && |choices| < WORD
    requires OpenCount(v, v.nodes) > 0 && from + OpenCount(v, v.nodes) <= |choices|
    ensures Returned(choices[from..from + OpenCount(v, v.nodes)], tag)
         == if Open(v, tag) then multiset(v.nodes)[tag] else 0
  {
    var c := Candidates(v, v.nodes, []);
    CandidateCount(v, v.nodes);
    var m := |c|;
    var picks, window := Turns(from, m, m), choices[from..from + m];
    forall n | 0 <= n < m
      ensures picks[n] < |c| && window[n].Some? && window[n].value.tag == c[picks[n]].tag
    {
      TurnsAre(s, v, clients, run, choices, from + n);
    }
    forall i: nat | i < m ensures W.Count(picks, i) == 1 { FullTurnOnce(from, m, i); }
    WindowReturned(v, picks, window, tag, 1);
  }

  // ----- by what is on record --------------------------------------------------------

  /** Every open listed node is a candidate with what is on record for it. */
  lemma {:induction false} CandidateFor(v: View, tag: string) returns (x: Candidate)
    requires tag in v.nodes && Open(v, tag)
    ensures x in Candidates(v, v.nodes, []) && x.tag == tag
    ensures x.active == Entry(v.active, tag, 0) && x.latency == Latency(v, tag)
  {
    CandidatesAre(v, v.nodes, []);
    x := Candidate(tag, Entry(v.active, tag, 0), Entry(v.weights, tag, 100), Latency(v, tag));
  }

  lemma {:induction false} OnRecord(v: View, x: Candidate)
    requires x in Candidates(v, v.nodes, [])
    ensures x.active == Entry(v.active, x.tag, 0) && x.latency == Latency(v, x.tag)
  {
    CandidatesAre(v, v.nodes, []);
  }

  lemma LeastOf(c: seq<Candidate>, x: Candidate)
    requires x in c
    ensures c[LeastLoaded(c)] in c && c[LeastLoaded(c)].active <= x.active
  {
  }

  lemma StrategyTag(s: Settings, v: View, client: (string, nat), b: Balance, after: Balance, choice: Option<Selection>)
    requires Selects(s, v, client, b, after, choice) && choice.Some? && !choice.value.fromAffinity
    ensures
      var c := Candidates(v, v.nodes, []);
      && c != []
      && (s.strategy.LeastConnections? ==> choice.value.tag == c[LeastLoaded(c)].tag)
      && (s.strategy.LowestLatency? ==> choice.value.tag == Fastest(c))
  {
  }

  /** A node selected by load has no more connections than any other open node. */
  lemma {:induction false} LeastIsSelected(s: Settings, v: View, client: (string, nat), b: Balance, after: Balance,
                                           choice: Option<Selection>, other: string)
    requires Selects(s, v, client, b, after, choice) && s.strategy.LeastConnections?
    requires choice.Some? && !choice.value.fromAffinity && other in v.nodes && Open(v, other)
    ensures Entry(v.active, choice.value.tag, 0) <= Entry(v.active, other, 0)
  {
    var c := Candidates(v, v.nodes, []);
    StrategyTag(s, v, client, b, after, choice);
    var y := CandidateFor(v, other);
    LeastOf(c, y);
    OnRecord(v, c[LeastLoaded(c)]);
  }

  /** A node selected by latency is within 10 of every measured one, once any has been measured. */
  lemma {:induction false} FastIsSelected(s: Settings, v: View, client: (string, nat), b: Balance, after: Balance,
                                          choice: Option<Selection>, other: string)
    requires Selects(s, v, client, b, after, choice) && s.strategy.LowestLatency?
    requires choice.Some? && !choice.value.fromAffinity && other in v.nodes && Open(v, other)
    requires 0 < Latency(v, other) <= INT_MAX - 10
    ensures Latency(v, choice.value.tag) <= Latency(v, other) + 10
  {
    var c := Candidates(v, v.nodes, []);
    StrategyTag(s, v, client, b, after, choice);
    var y := CandidateFor(v, other);
    FastestIs(c);
    var x :| x in c && x.tag == Fastest(c)
      && (forall z :: z in c && z.latency > 0 ==> x.latency <= z.latency + 10);
    OnRecord(v, x);
  }
}

/** Smooth weighted round robin: one vector of running weights, a few lines per pick. Over a
    fixed candidate list it serves every candidate in exact proportion to its weight, in every
    window of as many picks as the weights add up to. */
module WeightedRoundRobin {
  import opened Wrappers

  function Sum(s: seq<int>): int {
    if s == [] then 0 else Sum(s[..|s| - 1]) + s[|s| - 1]
  }

  predicate NonNegative(s: seq<int>) { forall i :: 0 <= i < |s| ==> s[i] >= 0 }

  predicate AllZero(s: seq<int>) { forall i :: 0 <= i < |s| ==> s[i] == 0 }

  /** One pick: every running weight grows by its candidate's weight, the first of the largest
      is chosen, and the chosen one pays the total back. */
  ghost predicate IsPick(before: seq<int>, weights: seq<int>, total: int, after: seq<int>, best: nat) {
    && |before| == |weights| == |after| && best < |weights|
    && (forall i :: 0 <= i < |weights| ==> before[i] + weights[i] <= before[best] + weights[best])
    && (forall i :: 0 <= i < best ==> before[i] + weights[i] < before[best] + weights[best])
    && (forall i :: 0 <= i < |weights| ==>
          after[i] == before[i] + weights[i] - if i == best then total else 0)
  }

  /** std::vector::resize with zero as the filler. */
  ghost predicate IsResized(before: seq<int>, after: seq<int>) {
    forall i :: 0 <= i < |after| ==> after[i] == if i < |before| then before[i] else 0
  }

  /** One call of the scheduler: the vector is resized to the candidate list; then, unless the
      weights add up to zero, one pick is made. */
  ghost predicate IsCall(before: seq<int>, weights: seq<int>, after: seq<int>, choice: Option<nat>) {
    exists resized: seq<int> :: |resized| == |weights| && IsResized(before, resized)
      && if Sum(weights) == 0 then
           after == resized && choice == if weights == [] then None else Some(0)
         else
           choice.Some? && IsPick(resized, weights, Sum(weights), after, choice.value)
  }

  /** A scheduler without a history chooses the first of the largest weights. */
  lemma FirstPick(before: seq<int>, weights: seq<int>, after: seq<int>, choice: nat)
    requires AllZero(before) && IsCall(before, weights, after, Some(choice)) && Sum(weights) != 0
    ensures choice < |weights|
    ensures forall i :: 0 <= i < |weights| ==> weights[i] <= weights[choice]
    ensures forall i :: 0 <= i < choice ==> weights[i] < weights[choice]
  {
  }

  // ----- sums ------------------------------------------------------------------------

  lemma {:induction false} SumOfSums(a: seq<int>, b: seq<int>, c: seq<int>)
    requires |a| == |b| == |c| && forall i :: 0 <= i < |a| ==> c[i] == a[i] + b[i]
    ensures Sum(c) == Sum(a) + Sum(b)
  {
    if a != [] {
      var n := |a| - 1;
      SumOfSums(a[..n], b[..n], c[..n]);
    }
  }

  /** A vector with one entry v and zeros elsewhere. */
  lemma {:induction false} SingleSum(s: seq<int>, i: nat)
    requires i < |s| && forall j :: 0 <= j < |s| && j != i ==> s[j] == 0
    ensures Sum(s) == s[i]
  {
    var n := |s| - 1;
    if i < n {
      SingleSum(s[..n], i);
    } else {
      ZeroSum(s[..n]);
    }
  }

  lemma {:induction false} ZeroSum(s: seq<int>)
    requires AllZero(s)
    ensures Sum(s) == 0
  {
    if s != [] { ZeroSum(s[..|s| - 1]); }
  }

  /** An entry of a vector is its sum less what the others make up at the least. */
  lemma {:induction false} EntryAtMost(s: seq<int>, i: nat, low: int)
    requires i < |s| && forall j :: 0 <= j < |s| ==> s[j] >= low
    ensures s[i] <= Sum(s) - Times(low, |s| - 1)
  {
    var n := |s| - 1;
    if i < n {
      EntryAtMost(s[..n], i, low);
    } else {
      SumAtLeast(s[..n], low);
    }
  }

  lemma {:induction false} SumAtLeast(s: seq<int>, low: int)
    requires forall j :: 0 <= j < |s| ==> s[j] >= low
    ensures Sum(s) >= Times(low, |s|)
  {
    if s != [] { SumAtLeast(s[..|s| - 1], low); }
  }

  lemma {:induction false} SumAtMostZero(s: seq<int>)
    requires forall j :: 0 <= j < |s| ==> s[j] <= 0
    ensures Sum(s) <= 0
  {
    if s != [] { SumAtMostZero(s[..|s| - 1]); }
  }

  lemma {:induction false} NothingLeft(s: seq<int>, i: nat)
    requires i < |s| && NonNegative(s) && Sum(s) == 0
    ensures s[i] == 0
  {
    EntryAtMost(s, i, 0);
    TimesZero(|s| - 1);
  }

  // ----- products by repeated addition -----------------------------------------------

  /** a * n, as the picks build it up. */
  ghost function Times(a: int, n: nat): int {
    if n == 0 then 0 else Times(a, n - 1) + a
  }

  lemma {:induction false} TimesIsProduct(a: int, n: nat)
    ensures Times(a, n) == a * n
  {
    if n > 0 {
      TimesIsProduct(a, n - 1);
      Distribute(a, n - 1, 1);
    }
  }

  lemma Distribute(a: int, b: int, c: int)
    ensures a * (b + c) == a * b + a * c
  {
  }

  lemma {:induction false} TimesZero(n: nat)
    ensures Times(0, n) == 0
  {
    if n > 0 { TimesZero(n - 1); }
  }

  lemma {:induction false} TimesNegative(a: int, n: nat)
    ensures Times(0 - a, n) == 0 - Times(a, n)
  {
    if n > 0 { TimesNegative(a, n - 1); }
  }

  lemma {:induction false} TimesGrows(a: nat, m: nat, n: nat)
    requires m < n
    ensures Times(a, m) + a <= Times(a, n)
    decreases n
  {
    if m < n - 1 { TimesGrows(a, m, n - 1); }
  }

  /** Two multiples of total and of weight over a full turn: less than a turn short is not
      short at all, and equal products come from equal counts. */
  lemma {:induction false} FullTurn(total: nat, weight: nat, count: nat)
    requires total > 0
    ensures Times(weight, total) - Times(total, count) + total > 0
            ==> Times(weight, total) >= Times(total, count)
    ensures Times(weight, total) == Times(total, count) ==> weight == count
  {
    TimesIsProduct(weight, total);
    TimesIsProduct(total, weight);
    if count < weight {
      TimesGrows(total, count, weight);
    } else if weight < count {
      TimesGrows(total, weight, count);
    }
  }

  // ----- one pick --------------------------------------------------------------------

  /** What every pick keeps: the entries add up to zero and stay above minus `most`, where
      `most` bounds the total weight of every pick so far. */
  ghost predicate Balanced(current: seq<int>, most: nat) {
    && Sum(current) == 0
    && forall i :: 0 <= i < |current| ==> current[i] + most > 0 || (most == 0 && current[i] == 0)
  }

  lemma {:induction false} PickBalanced(before: seq<int>, weights: seq<int>, after: seq<int>, best: nat, most: nat)
    requires IsPick(before, weights, Sum(weights), after, best)
    requires NonNegative(weights) && 0 < Sum(weights) <= most
    requires Balanced(before, most)
    ensures Balanced(after, most)
  {
    var raised := seq(|weights|, i requires 0 <= i < |weights| => before[i] + weights[i]);
    var paid := seq(|weights|, i => if i == best then 0 - Sum(weights) else 0);
    SumOfSums(before, weights, raised);
    SumOfSums(raised, paid, after);
    SingleSum(paid, best);
    if raised[best] <= 0 {
      SumAtMostZero(raised);
    }
  }

  /** The pick is determined by the vector and the weights. */
  lemma {:induction false} PickUnique(before: seq<int>, weights: seq<int>, total: int,
                   a: seq<int>, b: seq<int>, i: nat, j: nat)
    requires IsPick(before, weights, total, a, i) && IsPick(before, weights, total, b, j)
    ensures i == j && a == b
  {
    assert before[i] + weights[i] == before[j] + weights[j];
  }

  /** No intermediate value of a pick leaves [-most, candidates * most], so a 32-bit int holds
      them all whenever that product fits one. */
  lemma {:induction false} WordSafe(current: seq<int>, weights: seq<int>, most: nat, i: nat)
    requires |current| == |weights| && i < |weights|
    requires NonNegative(weights) && Sum(weights) <= most
    requires Balanced(current, most)
    ensures 0 <= current[i] + most <= most * |current|
    ensures 0 <= current[i] + weights[i] + most <= most * (|current| + 1)
  {
    EntryAtMost(current, i, 0 - most);
    EntryAtMost(weights, i, 0);
    TimesZero(|weights| - 1);
    TimesNegative(most, |current| - 1);
    TimesIsProduct(most, |current|);
    TimesIsProduct(most, |current| + 1);
  }

  // ----- runs with changing weights --------------------------------------------------

  function LargestTotal(weights: seq<seq<int>>): nat {
    if weights == [] then 0
    else
      var rest, last := LargestTotal(weights[..|weights| - 1]), Sum(weights[|weights| - 1]);
      if last > rest then last else rest
  }

  /** A run of calls from the empty vector: vectors[n] before call n, weights[n] seen by it. */
  ghost predicate IsRun(weights: seq<seq<int>>, vectors: seq<seq<int>>, choices: seq<Option<nat>>) {
    && |vectors| == |weights| + 1 && |choices| == |weights|
    && vectors[0] == []
    && forall n {:trigger IsCall(vectors[n], weights[n], vectors[n + 1], choices[n])} ::
         0 <= n < |weights| ==> IsCall(vectors[n], weights[n], vectors[n + 1], choices[n])
  }

  /** A run never gets ahead of its weights by more than the largest total it has seen, as long
      as no weight is negative and the candidate list does not shrink. */
  lemma {:induction false} NeverRunsAhead(weights: seq<seq<int>>, vectors: seq<seq<int>>,
                                          choices: seq<Option<nat>>)
    requires IsRun(weights, vectors, choices)
    requires forall n :: 0 <= n < |weights| ==> NonNegative(weights[n])
    requires forall n :: 0 < n < |weights| ==> |weights[n - 1]| <= |weights[n]|
    ensures Balanced(vectors[|weights|], LargestTotal(weights))
    ensures weights != [] ==> |vectors[|weights|]| == |weights[|weights| - 1]|
  {
    if weights != [] {
      var n := |weights| - 1;
      NeverRunsAhead(weights[..n], vectors[..n + 1], choices[..n]);
      assert IsCall(vectors[n], weights[n], vectors[n + 1], choices[n]);
      CallBalanced(vectors[n], weights[n], vectors[n + 1], choices[n],
        LargestTotal(weights[..n]), LargestTotal(weights));
    }
  }

  lemma {:induction false} CallBalanced(before: seq<int>, weights: seq<int>, after: seq<int>, choice: Option<nat>,
                     seen: nat, most: nat)
    requires IsCall(before, weights, after, choice)
    requires NonNegative(weights) && |before| <= |weights|
    requires Balanced(before, seen) && seen <= most && Sum(weights) <= most
    ensures Balanced(after, most) && |after| == |weights|
  {
    var grown: seq<int> :| |grown| == |weights| && IsResized(before, grown)
      && if Sum(weights) == 0 then
           after == grown && choice == if weights == [] then None else Some(0)
         else
           choice.Some? && IsPick(grown, weights, Sum(weights), after, choice.value);
    GrownSum(before, grown);
    SumAtLeast(weights, 0);
    TimesZero(|weights|);
    assert Balanced(grown, most);
    if Sum(weights) > 0 {
      PickBalanced(grown, weights, after, choice.value, most);
    }
  }

  lemma {:induction false} GrownSum(before: seq<int>, grown: seq<int>)
    requires |before| <= |grown| && IsResized(before, grown)
    ensures Sum(grown) == Sum(before)
  {
    if |before| == |grown| {
      assert before == grown;
    } else {
      GrownSum(before, grown[..|grown| - 1]);
    }
  }

  // ----- runs with fixed weights -----------------------------------------------------

  /** A run over one candidate list from the zero vector: picks[n] is made on vectors[n]. */
  ghost predicate IsFixedRun(weights: seq<int>, total: nat, vectors: seq<seq<int>>, picks: seq<nat>) {
    && |vectors| == |picks| + 1
    && |vectors[0]| == |weights| && AllZero(vectors[0])
    && forall n {:trigger picks[n]} :: 0 <= n < |picks| ==>
         IsPick(vectors[n], weights, total, vectors[n + 1], picks[n])
  }

  ghost predicate Weights(weights: seq<int>, total: nat) {
    NonNegative(weights) && Sum(weights) == total > 0
  }

  /** How many of the picks choose candidate i. */
  function Count(picks: seq<nat>, i: nat): nat {
    if picks == [] then 0
    else Count(picks[..|picks| - 1], i) + if picks[|picks| - 1] == i then 1 else 0
  }

  lemma {:induction false} FixedBalanced(weights: seq<int>, total: nat, vectors: seq<seq<int>>,
                                         picks: seq<nat>, n: nat)
    requires IsFixedRun(weights, total, vectors, picks) && Weights(weights, total) && n <= |picks|
    ensures |vectors[n]| == |weights| && Balanced(vectors[n], total)
  {
    if n == 0 {
      ZeroSum(vectors[0]);
    } else {
      FixedBalanced(weights, total, vectors, picks, n - 1);
      assert IsPick(vectors[n - 1], weights, total, vectors[n], picks[n - 1]);
      PickBalanced(vectors[n - 1], weights, vectors[n], picks[n - 1], total);
    }
  }

  /** Conservation: what a window of picks adds to an entry is its share of the weight less
      what its own picks have paid back. */
  lemma {:induction false} WindowLedger(weights: seq<int>, total: nat, vectors: seq<seq<int>>,
                                        picks: seq<nat>, i: nat, from: nat, until: nat)
    requires IsFixedRun(weights, total, vectors, picks)
    requires i < |weights| && from <= until <= |picks|
    ensures |vectors[from]| == |vectors[until]| == |weights|
    ensures vectors[until][i] - vectors[from][i]
         == Times(weights[i], until - from) - Times(total, Count(picks[from..until], i))
    decreases until
  {
    if until > from {
      WindowLedger(weights, total, vectors, picks, i, from, until - 1);
      assert IsPick(vectors[until - 1], weights, total, vectors[until], picks[until - 1]);
      assert picks[from..until][..until - from - 1] == picks[from..until - 1];
    } else if from > 0 {
      assert IsPick(vectors[from - 1], weights, total, vectors[from], picks[from - 1]);
    }
  }

  /** After as many picks as the weights add up to, the vector is back at zero. */
  lemma {:induction false} BackToZero(weights: seq<int>, total: nat, vectors: seq<seq<int>>, picks: seq<nat>)
    requires IsFixedRun(weights, total, vectors, picks) && Weights(weights, total)
    requires total <= |picks|
    ensures |vectors[total]| == |weights| && AllZero(vectors[total])
  {
    FixedBalanced(weights, total, vectors, picks, total);
    forall i | 0 <= i < |weights| ensures vectors[total][i] >= 0 {
      WindowLedger(weights, total, vectors, picks, i, 0, total);
      FullTurn(total, weights[i], Count(picks[0..total], i));
    }
    forall i | 0 <= i < |weights| ensures vectors[total][i] == 0 {
      NothingLeft(vectors[total], i);
    }
  }

  /** The vectors, and with them the picks, repeat after as many picks as the weights add up to. */
  lemma {:induction false} Periodic(weights: seq<int>, total: nat, vectors: seq<seq<int>>,
                                    picks: seq<nat>, n: nat)
    requires IsFixedRun(weights, total, vectors, picks) && Weights(weights, total)
    requires n + total <= |picks|
    ensures vectors[n + total] == vectors[n]
    ensures n + total < |picks| ==> picks[n + total] == picks[n]
  {
    var later := n + total;
    if n == 0 {
      BackToZero(weights, total, vectors, picks);
    } else {
      Periodic(weights, total, vectors, picks, n - 1);
      PickUnique(vectors[n - 1], weights, total, vectors[n], vectors[later], picks[n - 1], picks[later - 1]);
    }
    if later < |picks| {
      PickUnique(vectors[n], weights, total, vectors[n + 1], vectors[later + 1], picks[n], picks[later]);
    }
  }

  /** Exact fairness: every window of total-weight many picks, wherever it starts, chooses
      each candidate exactly as often as its weight says. */
  lemma {:induction false} ExactlyFair(weights: seq<int>, total: nat, vectors: seq<seq<int>>, picks: seq<nat>,
                    i: nat, from: nat)
    requires IsFixedRun(weights, total, vectors, picks) && Weights(weights, total)
    requires i < |weights| && from + total <= |picks|
    ensures Count(picks[from..from + total], i) == weights[i]
  {
    Periodic(weights, total, vectors, picks, from);
    WindowLedger(weights, total, vectors, picks, i, from, from + total);
    FullTurn(total, weights[i], Count(picks[from..from + total], i));
  }

  /** In every prefix, no candidate is a full turn ahead of its share, or as many turns behind
      as there are candidates. */
  lemma {:induction false} PrefixShare(weights: seq<int>, total: nat, vectors: seq<seq<int>>, picks: seq<nat>,
                    i: nat, n: nat)
    requires IsFixedRun(weights, total, vectors, picks) && Weights(weights, total)
    requires i < |weights| && n <= |picks|
    ensures
      var count := Count(picks[..n], i);
      && total * count < weights[i] * n + total
      && weights[i] * n + total <= total * (count + |weights|)
  {
    var count := Count(picks[..n], i);
    FixedBalanced(weights, total, vectors, picks, n);
    WindowLedger(weights, total, vectors, picks, i, 0, n);
    assert picks[0..n] == picks[..n];
    WordSafe(vectors[n], weights, total, i);
    ShareFromLedger(vectors[n][i], weights[i], total, count, n, |weights|);
  }

  lemma {:induction false} ShareFromLedger(entry: int, weight: int, total: nat, count: nat, n: nat, candidates: nat)
    requires entry == Times(weight, n) - Times(total, count)
    requires 0 < entry + total <= total * candidates
    ensures total * count < weight * n + total
    ensures weight * n + total <= total * (count + candidates)
  {
    TimesIsProduct(weight, n);
    TimesIsProduct(total, count);
    Distribute(total, count, candidates);
  }

  /** The picks of a run of calls that all returned one. */
  function Chosen(choices: seq<Option<nat>>): (picks: seq<nat>)
    requires forall n :: 0 <= n < |choices| ==> choices[n].Some?
    ensures |picks| == |choices| && forall n :: 0 <= n < |choices| ==> picks[n] == choices[n].value
  {
    if choices == [] then [] else Chosen(choices[..|choices| - 1]) + [choices[|choices| - 1].value]
  }

  /** Calls of a new scheduler that all see the same weights make up a fixed run, so the
      scheduler serves exactly in proportion. */
  lemma {:induction false} FairService(weights: seq<int>, total: nat, calls: seq<seq<int>>, vectors: seq<seq<int>>,
                    choices: seq<Option<nat>>, i: nat, from: nat)
    requires IsRun(calls, vectors, choices) && Weights(weights, total)
    requires forall n :: 0 <= n < |calls| ==> calls[n] == weights
    requires i < |weights| && from + total <= |calls|
    ensures forall n :: 0 <= n < |choices| ==> choices[n].Some?
    ensures Count(Chosen(choices)[from..from + total], i) == weights[i]
  {
    StartedRun(weights, total, calls, vectors, choices);
    ExactlyFair(weights, total, Started(weights, vectors), Chosen(choices), i, from);
  }

  /** The vectors with the empty one at the start resized to zeros. */
  function Started(weights: seq<int>, vectors: seq<seq<int>>): seq<seq<int>>
    requires vectors != []
  {
    [Resized([], |weights|)] + vectors[1..]
  }

  ghost predicate PickMade(weights: seq<int>, total: nat, started: seq<seq<int>>,
                           choices: seq<Option<nat>>, n: nat)
    requires n < |choices| && |started| == |choices| + 1
  {
    choices[n].Some? && IsPick(started[n], weights, total, started[n + 1], choices[n].value)
  }

  lemma {:induction false} StartedRun(weights: seq<int>, total: nat, calls: seq<seq<int>>, vectors: seq<seq<int>>,
                   choices: seq<Option<nat>>)
    requires IsRun(calls, vectors, choices) && Weights(weights, total)
    requires forall n :: 0 <= n < |calls| ==> calls[n] == weights
    ensures forall n :: 0 <= n < |choices| ==> choices[n].Some?
    ensures IsFixedRun(weights, total, Started(weights, vectors), Chosen(choices))
  {
    forall n | 0 <= n < |choices|
      ensures PickMade(weights, total, Started(weights, vectors), choices, n)
    {
      PickOfRun(weights, total, calls, vectors, choices, n);
    }
    PicksAreFixedRun(weights, total, Started(weights, vectors), choices);
  }

  lemma {:induction false} PicksAreFixedRun(weights: seq<int>, total: nat, started: seq<seq<int>>,
                                            choices: seq<Option<nat>>)
    requires |started| == |choices| + 1 && |started[0]| == |weights| && AllZero(started[0])
    requires forall n :: 0 <= n < |choices| ==> PickMade(weights, total, started, choices, n)
    ensures forall n :: 0 <= n < |choices| ==> choices[n].Some?
    ensures IsFixedRun(weights, total, started, Chosen(choices))
  {
    forall n | 0 <= n < |choices| ensures choices[n].Some? {
      assert PickMade(weights, total, started, choices, n);
    }
    var picks := Chosen(choices);
    forall n {:trigger picks[n]} | 0 <= n < |picks|
      ensures IsPick(started[n], weights, total, started[n + 1], picks[n])
    {
      assert PickMade(weights, total, started, choices, n);
    }
  }

  lemma {:induction false} PickOfRun(weights: seq<int>, total: nat, calls: seq<seq<int>>, vectors: seq<seq<int>>,
                  choices: seq<Option<nat>>, n: nat)
    requires IsRun(calls, vectors, choices) && Sum(weights) == total > 0
    requires n < |calls| && calls[n] == weights && (n > 0 ==> calls[n - 1] == weights)
    ensures PickMade(weights, total, Started(weights, vectors), choices, n)
  {
    var start := Started(weights, vectors)[n];
    StartOfCall(weights, calls, vectors, choices, n);
    assert IsCall(vectors[n], calls[n], vectors[n + 1], choices[n]);
    PickOfCall(vectors[n], weights, total, vectors[n + 1], choices[n], start);
  }

  lemma {:induction false} StartOfCall(weights: seq<int>, calls: seq<seq<int>>, vectors: seq<seq<int>>,
                    choices: seq<Option<nat>>, n: nat)
    requires IsRun(calls, vectors, choices)
    requires n < |calls| && (n > 0 ==> calls[n - 1] == weights)
    ensures |Started(weights, vectors)[n]| == |weights|
    ensures IsResized(vectors[n], Started(weights, vectors)[n])
  {
    if n > 0 {
      var m := n - 1;
      assert IsCall(vectors[m], calls[m], vectors[m + 1], choices[m]);
      CallLength(vectors[m], weights, vectors[m + 1], choices[m]);
    }
  }

  lemma CallLength(before: seq<int>, weights: seq<int>, after: seq<int>, choice: Option<nat>)
    requires IsCall(before, weights, after, choice)
    ensures |after| == |weights|
  {
  }

  lemma {:induction false} PickOfCall(before: seq<int>, weights: seq<int>, total: nat, after: seq<int>,
                   choice: Option<nat>, start: seq<int>)
    requires IsCall(before, weights, after, choice) && Sum(weights) == total > 0
    requires |start| == |weights| && IsResized(before, start)
    ensures choice.Some? && IsPick(start, weights, total, after, choice.value)
  {
    var resized: seq<int> :| |resized| == |weights| && IsResized(before, resized)
      && choice.Some? && IsPick(resized, weights, total, after, choice.value);
    assert resized == start;
  }

  // ----- the scheduler ---------------------------------------------------------------

  /** The running weights of the load balancer. */
  class Scheduler {
    var current: seq<int>

    constructor ()
      ensures current == []
    {
      current := [];
    }

    /** One scheduling decision over the candidates' weights; None on an empty list. */
    method Pick(weights: seq<int>) returns (choice: Option<nat>)
      modifies this
      ensures IsCall(old(current), weights, current, choice)
    {
      if |current| != |weights| {
        current := Resized(current, |weights|);
      }
      ghost var resized := current;
      assert IsResized(old(current), resized);

      var total := 0;
      for i := 0 to |weights|
        invariant total == Sum(weights[..i])
      {
        assert weights[..i + 1][..i] == weights[..i];
        total := total + weights[i];
      }
      assert weights[..|weights|] == weights;
      if total == 0 {
        return if weights == [] then None else Some(0);
      }

      for i := 0 to |weights|
        invariant |current| == |weights|
        invariant forall j :: 0 <= j < i ==> current[j] == resized[j] + weights[j]
        invariant forall j :: i <= j < |weights| ==> current[j] == resized[j]
      {
        current := current[i := current[i] + weights[i]];
      }

      var best := 0;
      for i := 1 to |weights|
        invariant best < i
        invariant forall j :: 0 <= j < i ==> current[j] <= current[best]
        invariant forall j :: 0 <= j < best ==> current[j] < current[best]
      {
        if current[i] > current[best] { best := i; }
      }
      current := current[best := current[best] - total];
      assert IsPick(resized, weights, total, current, best);
      return Some(best);
    }
  }

  function Resized(s: seq<int>, n: nat): (r: seq<int>)
    ensures |r| == n && IsResized(s, r)
  {
    if n <= |s| then s[..n] else s + seq(n - |s|, _ => 0)
  }
}

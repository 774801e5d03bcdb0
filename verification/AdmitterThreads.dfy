/** The admitter under interleaving: the check of the counter and its increment are separate
    steps, the release loop is a compare-and-swap, and only the queue has a lock. */
module AdmitterThreads {
  import opened Wrappers

  /** Where a thread stands in request_admit, release_connection or dequeue_connections. */
  datatype Place =
    | Idle
    | PastCheck                // has seen a free slot, has not taken it yet
    | Queueing                 // has seen no free slot, has not got the queue lock yet
    | Swapping(seen: int)      // in the compare-and-swap loop
    | Freed                    // has given its slot back, has not got the queue lock yet
    | Dequeueing               // holds the lock, about to test the loop condition
    | PastTest                 // holds the lock and has seen a free slot and an entry
    | InCallback               // has dropped the lock to run a callback

  datatype World = World(active: int, queue: nat, lock: Option<nat>, threads: seq<Place>)

  datatype Limits = Limits(total: int, queueEnabled: bool, queueSize: int)

  /** What a thread can do next; Swap fails spuriously when told to, and TimeOut leaves `kept`
      entries in the queue. */
  datatype Action = Check | Enter | Enqueue | Load | Swap(spurious: bool) | Lock | Test(kept: nat) | Take

  function At(w: World, t: nat, p: Place): World
    requires t < |w.threads|
  {
    w.(threads := w.threads[t := p])
  }

  /** One step of thread t, or None when the thread cannot take it. */
  function Do(l: Limits, w: World, t: nat, a: Action): Option<World>
    requires t < |w.threads|
  {
    match (a, w.threads[t])
    case (Check, Idle) =>
      if w.active < l.total then Some(At(w, t, PastCheck))
      else if l.queueEnabled then Some(At(w, t, Queueing))
      else Some(w)
    case (Enter, PastCheck) =>
      Some(At(w, t, Idle).(active := w.active + 1))
    case (Enqueue, Queueing) =>
      if w.lock.Some? then None
      else if w.queue >= l.queueSize then Some(At(w, t, Idle))
      else Some(At(w, t, Idle).(queue := w.queue + 1))
    case (Load, Idle) =>
      Some(At(w, t, Swapping(w.active)))
    case (Swap(spurious), Swapping(seen)) =>
      if seen <= 0 then Some(At(w, t, Freed))
      else if w.active == seen && !spurious then Some(At(w, t, Freed).(active := seen - 1))
      else Some(At(w, t, Swapping(w.active)))
    case (Lock, Freed) =>
      if w.lock.Some? then None else Some(At(w, t, Dequeueing).(lock := Some(t)))
    case (Lock, InCallback) =>
      if w.lock.Some? then None else Some(At(w, t, Dequeueing).(lock := Some(t)))
    case (Test(kept), Dequeueing) =>
      if w.queue > 0 && w.active < l.total then Some(At(w, t, PastTest))
      else if kept <= w.queue then Some(At(w, t, Idle).(queue := kept, lock := None))
      else None
    case (Take, PastTest) =>
      if w.queue == 0 then None    // pop_front of an empty deque
      else Some(At(w, t, InCallback).(queue := w.queue - 1, active := w.active + 1, lock := None))
    case _ => None
  }

  ghost predicate IsStep(l: Limits, w: World, next: World) {
    exists t: nat, a: Action :: t < |w.threads| && Do(l, w, t, a) == Some(next)
  }

  ghost predicate IsRun(l: Limits, run: seq<World>, threads: nat) {
    && run != []
    && run[0] == World(0, 0, None, seq(threads, _ => Idle))
    && forall n {:trigger IsStep(l, run[n], run[n + 1])} :: 0 <= n < |run| - 1 ==> IsStep(l, run[n], run[n + 1])
  }

  ghost predicate Reachable(l: Limits, w: World, threads: nat) {
    exists run: seq<World> :: IsRun(l, run, threads) && run[|run| - 1] == w
  }

  // ----- the bound -------------------------------------------------------------------

  predicate Committed(p: Place) { p == PastCheck || p == PastTest }

  /** How many threads have seen a free slot that they have not taken yet. */
  function CommittedCount(threads: seq<Place>): (n: nat)
    ensures n <= |threads|
  {
    if threads == [] then 0
    else CommittedCount(threads[..|threads| - 1])
         + if Committed(threads[|threads| - 1]) then 1 else 0
  }

  lemma {:induction false} CommittedUpdate(threads: seq<Place>, t: nat, p: Place)
    requires t < |threads|
    ensures CommittedCount(threads[t := p])
         == CommittedCount(threads) - (if Committed(threads[t]) then 1 else 0)
            + (if Committed(p) then 1 else 0)
  {
    var n := |threads| - 1;
    if t < n {
      CommittedUpdate(threads[..n], t, p);
      assert threads[t := p][..n] == threads[..n][t := p];
    } else {
      assert threads[t := p][..n] == threads[..n];
    }
  }

  function Max(a: int, b: int): int { if a >= b then a else b }

  /** Slots taken plus slots about to be taken stay within the limit plus one per thread, less
      one; and the lock belongs to the one thread in the critical section, which does not find
      the queue emptied between its test and its pop. */
  ghost predicate Inv(l: Limits, w: World) {
    && 0 <= w.active
    && w.active + CommittedCount(w.threads) <= Max(0, l.total - 1 + |w.threads|)
    && (forall t :: 0 <= t < |w.threads| ==>
          (w.threads[t] == Dequeueing || w.threads[t] == PastTest <==> w.lock == Some(t)))
    && (forall t :: 0 <= t < |w.threads| && w.threads[t] == PastTest ==> w.queue > 0)
  }

  lemma {:induction false} StepKeepsInv(l: Limits, w: World, t: nat, a: Action)
    requires Inv(l, w) && t < |w.threads| && Do(l, w, t, a).Some?
    ensures Inv(l, Do(l, w, t, a).value)
    ensures |Do(l, w, t, a).value.threads| == |w.threads|
  {
    var next := Do(l, w, t, a).value;
    StepMovesOne(l, w, t, a);
    CommittedUpdate(w.threads, t, next.threads[t]);
  }

  lemma StepMovesOne(l: Limits, w: World, t: nat, a: Action)
    requires t < |w.threads| && Do(l, w, t, a).Some?
    ensures
      var next := Do(l, w, t, a).value;
      |next.threads| == |w.threads| && next.threads == w.threads[t := next.threads[t]]
  {
  }

  lemma {:induction false} InvHolds(l: Limits, run: seq<World>, threads: nat)
    requires IsRun(l, run, threads)
    ensures Inv(l, run[|run| - 1]) && |run[|run| - 1].threads| == threads
  {
    if |run| == 1 {
      NoneCommitted(run[0].threads);
    } else {
      var n := |run| - 2;
      InvHolds(l, run[..n + 1], threads);
      assert IsStep(l, run[n], run[n + 1]);
      var t: nat, a: Action :| t < |run[n].threads| && Do(l, run[n], t, a) == Some(run[n + 1]);
      StepKeepsInv(l, run[n], t, a);
    }
  }

  lemma {:induction false} NoneCommitted(threads: seq<Place>)
    requires forall t :: 0 <= t < |threads| ==> threads[t] == Idle
    ensures CommittedCount(threads) == 0
  {
    if threads != [] { NoneCommitted(threads[..|threads| - 1]); }
  }

  /** Whatever the interleaving, the limit is exceeded by at most the number of threads less one. */
  lemma {:induction false} ActiveBounded(l: Limits, w: World, threads: nat)
    requires Reachable(l, w, threads)
    ensures 0 <= w.active <= Max(0, l.total + threads - 1)
  {
    var run: seq<World> :| IsRun(l, run, threads) && run[|run| - 1] == w;
    InvHolds(l, run, threads);
  }

  /** A thread that has passed the loop test can always take its entry. */
  lemma {:induction false} NeverPopsEmpty(l: Limits, w: World, threads: nat, t: nat)
    requires Reachable(l, w, threads) && t < |w.threads| && w.threads[t] == PastTest
    ensures Do(l, w, t, Take).Some?
  {
    var run: seq<World> :| IsRun(l, run, threads) && run[|run| - 1] == w;
    InvHolds(l, run, threads);
  }

  /** No two threads are in the critical section. */
  lemma {:induction false} MutualExclusion(l: Limits, w: World, threads: nat, t: nat, u: nat)
    requires Reachable(l, w, threads) && t < |w.threads| && u < |w.threads|
    requires w.threads[t] == Dequeueing || w.threads[t] == PastTest
    requires w.threads[u] == Dequeueing || w.threads[u] == PastTest
    ensures t == u
  {
    var run: seq<World> :| IsRun(l, run, threads) && run[|run| - 1] == w;
    InvHolds(l, run, threads);
  }

  // ----- the bound is reached --------------------------------------------------------

  lemma {:induction false} Extend(l: Limits, w: World, threads: nat, t: nat, a: Action)
    requires Reachable(l, w, threads) && t < |w.threads| && Do(l, w, t, a).Some?
    ensures Reachable(l, Do(l, w, t, a).value, threads)
  {
    var run: seq<World> :| IsRun(l, run, threads) && run[|run| - 1] == w;
    var longer := run + [Do(l, w, t, a).value];
    forall n | 0 <= n < |longer| - 1 ensures IsStep(l, longer[n], longer[n + 1]) {
      if n < |run| - 1 { assert IsStep(l, run[n], run[n + 1]); }
    }
    assert IsRun(l, longer, threads);
  }

  function Line(threads: nat, first: nat, p: Place, q: Place): (s: seq<Place>)
    ensures |s| == threads
    ensures forall t :: 0 <= t < threads ==> s[t] == if t < first then p else q
  {
    seq(threads, t => if t < first then p else q)
  }

  /** One thread alone fills n slots. */
  lemma {:induction false} OneFills(l: Limits, threads: nat, n: nat)
    requires threads >= 1 && n <= l.total
    ensures Reachable(l, World(n, 0, None, Line(threads, 0, Idle, Idle)), threads)
  {
    var idle := Line(threads, 0, Idle, Idle);
    if n == 0 {
      var start := World(0, 0, None, seq(threads, _ => Idle));
      assert start == World(0, 0, None, idle);
      assert IsRun(l, [start], threads);
    } else {
      OneFills(l, threads, n - 1);
      var w := World(n - 1, 0, None, idle);
      Extend(l, w, threads, 0, Check);
      Extend(l, At(w, 0, PastCheck), threads, 0, Enter);
      assert idle[0 := PastCheck][0 := Idle] == idle;
    }
  }

  /** All threads pass the check while the same last slot is free. */
  lemma {:induction false} AllCheck(l: Limits, threads: nat, n: nat)
    requires threads >= 1 && l.total >= 1 && n <= threads
    ensures Reachable(l, World(l.total - 1, 0, None, Line(threads, n, PastCheck, Idle)), threads)
  {
    if n == 0 {
      OneFills(l, threads, l.total - 1);
      assert Line(threads, 0, Idle, Idle) == Line(threads, 0, PastCheck, Idle);
    } else {
      AllCheck(l, threads, n - 1);
      Extend(l, World(l.total - 1, 0, None, Line(threads, n - 1, PastCheck, Idle)), threads, n - 1, Check);
      assert Line(threads, n - 1, PastCheck, Idle)[n - 1 := PastCheck] == Line(threads, n, PastCheck, Idle);
    }
  }

  lemma {:induction false} AllEnter(l: Limits, threads: nat, n: nat)
    requires threads >= 1 && l.total >= 1 && n <= threads
    ensures Reachable(l, World(l.total - 1 + n, 0, None, Line(threads, n, Idle, PastCheck)), threads)
  {
    if n == 0 {
      AllCheck(l, threads, threads);
      assert Line(threads, threads, PastCheck, Idle) == Line(threads, 0, Idle, PastCheck);
    } else {
      AllEnter(l, threads, n - 1);
      Extend(l, World(l.total - 2 + n, 0, None, Line(threads, n - 1, Idle, PastCheck)), threads, n - 1, Enter);
      assert Line(threads, n - 1, Idle, PastCheck)[n - 1 := Idle] == Line(threads, n, Idle, PastCheck);
    }
  }

  /** For every number of threads and every positive limit, some run attains the bound. */
  lemma {:induction false} BoundAttained(l: Limits, threads: nat)
    requires threads >= 1 && l.total >= 1
    ensures exists w :: Reachable(l, w, threads) && w.active == l.total + threads - 1
  {
    AllEnter(l, threads, threads);
  }

  // ----- what interleaving breaks ----------------------------------------------------

  /** All threads are between calls, somebody waits, and a slot is free. */
  ghost predicate Stranded(l: Limits, w: World) {
    && (forall t :: 0 <= t < |w.threads| ==> w.threads[t] == Idle)
    && w.queue > 0 && w.active < l.total
  }

  /** One thread alone: where it stands tells whether a slot can be free while somebody waits. */
  ghost predicate OneThreadInv(l: Limits, w: World) {
    |w.threads| == 1 && match w.threads[0]
      case Idle => w.queue > 0 ==> w.active >= l.total
      case PastCheck => w.queue == 0
      case Queueing => w.active >= l.total
      case Swapping(_) => w.queue > 0 ==> w.active >= l.total
      case _ => true
  }

  lemma {:induction false} OneThreadNotStranded(l: Limits, run: seq<World>)
    requires IsRun(l, run, 1)
    ensures OneThreadInv(l, run[|run| - 1])
  {
    if |run| > 1 {
      var n := |run| - 2;
      OneThreadNotStranded(l, run[..n + 1]);
      assert IsStep(l, run[n], run[n + 1]);
    }
  }

  /** What can get into the queue at all. */
  ghost predicate QueueInv(l: Limits, w: World) {
    && (w.queue > 0 ==> |w.threads| > 0 && l.queueEnabled && w.queue <= l.queueSize)
    && (!l.queueEnabled ==> forall t :: 0 <= t < |w.threads| ==> w.threads[t] != Queueing)
  }

  lemma {:induction false} StepKeepsQueue(l: Limits, w: World, t: nat, a: Action)
    requires QueueInv(l, w) && t < |w.threads| && Do(l, w, t, a).Some?
    ensures QueueInv(l, Do(l, w, t, a).value)
  {
    var next := Do(l, w, t, a).value;
    StepMovesOne(l, w, t, a);
    assert next.queue > w.queue ==> w.threads[t] == Queueing && next.queue <= l.queueSize;
    assert next.threads[t] == Queueing ==> l.queueEnabled;
  }

  lemma {:induction false} QueueBounded(l: Limits, run: seq<World>, threads: nat)
    requires IsRun(l, run, threads)
    ensures QueueInv(l, run[|run| - 1])
  {
    if |run| > 1 {
      var n := |run| - 2;
      QueueBounded(l, run[..n + 1], threads);
      assert IsStep(l, run[n], run[n + 1]);
      var t: nat, a: Action :| t < |run[n].threads| && Do(l, run[n], t, a) == Some(run[n + 1]);
      StepKeepsQueue(l, run[n], t, a);
    }
  }

  /** The queue, tested and extended under its lock, never outgrows its size, whatever the
      interleaving. */
  lemma {:induction false} QueueFits(l: Limits, w: World, threads: nat)
    requires Reachable(l, w, threads) && w.queue > 0
    ensures l.queueEnabled && w.queue <= l.queueSize
  {
    var run: seq<World> :| IsRun(l, run, threads) && run[|run| - 1] == w;
    QueueBounded(l, run, threads);
  }

  lemma {:induction false} Move(l: Limits, threads: nat, w: World, t: nat, a: Action, next: World)
    requires Reachable(l, w, threads) && t < |w.threads|
    requires Do(l, w, t, a) == Some(next)
    ensures Reachable(l, next, threads)
  {
    Extend(l, w, threads, t, a);
  }

  /** All slots are taken; one thread sees that, another one gives a slot back. */
  lemma {:induction false} SlotFreedTooLate(l: Limits, threads: nat)
    requires threads >= 2 && l.total >= 1 && l.queueEnabled
    ensures Reachable(l, World(l.total - 1, 0, None, Line(threads, 0, Idle, Idle)[1 := Queueing][0 := Freed]), threads)
  {
    var idle, n := Line(threads, 0, Idle, Idle), l.total;
    OneFills(l, threads, n);
    Move(l, threads, World(n, 0, None, idle), 1, Check, World(n, 0, None, idle[1 := Queueing]));
    var seen := idle[1 := Queueing];
    Move(l, threads, World(n, 0, None, seen), 0, Load, World(n, 0, None, seen[0 := Swapping(n)]));
    var w := World(n, 0, None, seen[0 := Swapping(n)]);
    assert seen[0 := Swapping(n)][0 := Freed] == seen[0 := Freed];
    Move(l, threads, w, 0, Swap(false), World(n - 1, 0, None, seen[0 := Freed]));
  }

  /** The other thread looks at the queue before the request is in it. */
  lemma {:induction false} QueuedTooLate(l: Limits, threads: nat)
    requires threads >= 2 && l.total >= 1 && l.queueEnabled && l.queueSize >= 1
    ensures Reachable(l, World(l.total - 1, 1, None, Line(threads, 0, Idle, Idle)), threads)
  {
    var idle, n := Line(threads, 0, Idle, Idle), l.total - 1;
    var seen := idle[1 := Queueing];
    SlotFreedTooLate(l, threads);
    assert seen[0 := Freed][0 := Dequeueing] == seen[0 := Dequeueing];
    Move(l, threads, World(n, 0, None, seen[0 := Freed]), 0, Lock, World(n, 0, Some(0), seen[0 := Dequeueing]));
    assert seen[0 := Dequeueing][0 := Idle] == seen;
    Move(l, threads, World(n, 0, Some(0), seen[0 := Dequeueing]), 0, Test(0), World(n, 0, None, seen));
    assert seen[1 := Idle] == idle;
    Move(l, threads, World(n, 0, None, seen), 1, Enqueue, World(n, 1, None, idle));
  }

  /** That no slot idles while somebody waits holds between atomic calls only. Under interleaving
      a request can be left in the queue with a slot free and nobody to look, exactly when there
      are two threads, a slot and a place in the queue. */
  lemma {:induction false} LostWakeup(l: Limits, threads: nat)
    ensures (exists w :: Reachable(l, w, threads) && Stranded(l, w))
       <==> threads >= 2 && l.total >= 1 && l.queueEnabled && l.queueSize >= 1
  {
    if threads >= 2 && l.total >= 1 && l.queueEnabled && l.queueSize >= 1 {
      QueuedTooLate(l, threads);
      assert Stranded(l, World(l.total - 1, 1, None, Line(threads, 0, Idle, Idle)));
    } else {
      forall w | Reachable(l, w, threads) ensures !Stranded(l, w) {
        NotStranded(l, w, threads);
      }
    }
  }

  lemma {:induction false} NotStranded(l: Limits, w: World, threads: nat)
    requires Reachable(l, w, threads)
    requires !(threads >= 2 && l.total >= 1 && l.queueEnabled && l.queueSize >= 1)
    ensures !Stranded(l, w)
  {
    var run: seq<World> :| IsRun(l, run, threads) && run[|run| - 1] == w;
    InvHolds(l, run, threads);
    QueueBounded(l, run, threads);
    if threads == 1 { OneThreadNotStranded(l, run); }
  }
}

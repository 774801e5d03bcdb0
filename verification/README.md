# Verification of the gateway's scheduling, admission, caching, routing and node configuration

A LAN proxy gateway authenticates clients (SOCKS5 or HTTP CONNECT), decides whether their
connections are admitted, chooses an upstream VMess node for them, and keeps the configuration of
the v2ray process that serves those nodes. This project models the parts of it that carry an
algorithm or a protocol, and proves what they are for. `dafny verify dfyconfig.toml` checks it.

Where the code works by changing fields step by step, the model is a class whose methods have the
code's branches and loops; each method is proved equal to a function (or relation) of the old state
and the arguments, and the laws are lemmas about that function, mostly over whole runs. Codecs that
are stateless mappings in the code are functions here. Lemmas with a proof carry `{:induction false}`:
inductions are written out, and no hypothesis is added to them. Each module is named after what it
models:

| module | what it is |
|---|---|
| `Base64` | the hand-written base64 coder with its never-masked 32-bit accumulator, against the reading of sections 4 and 5 of RFC 4648 as one unbounded bit stream |
| `WeightedRoundRobin` | smooth weighted round robin: conservation, periodicity, exact fairness |
| `Admitter`, `Admission`, `UserLimit`, `AdmitterThreads` | connection admission with a two-class queue: with atomic calls, who is let in and for how long others wait, the limits under which its user limit holds, and as interleaved steps of any number of threads |
| `RateLimiter`, `RateHistory` | the fixed-window limiter and its bans, and its answers in terms of what has happened |
| `IpAffinity`, `AffinityHistory`, `LruHistory` | the LRU table of client affinities, index and list; against the history of all its operations; and, without cleanups, as a function of that history |
| `Health`, `LoadBalancer`, `Fairness`, `Failover` | node health, the choice of a node, successive choices, and chains of failovers |
| `RouteEngine` | the routing decision by index, against a scan of the rules |
| `Session` | SOCKS5 messages (RFC 1928, RFC 1929) and Basic credentials (section 2 of RFC 7617) |
| `Json`, `VmNode`, `Decimal`, `Clock`, `Wrappers` | JSON values and the library's accessors, a VMess node and its validator, printed integers, the steady clock, optional values |
| `ConfigBuilder`, `NodeParser`, `ConfigLoader` | building the v2ray configuration, and reading it back |
| `NodeManager`, `NodeOutcomes`, `NodeSync` | the node list with its rollbacks, what each operation leaves in list and files, and their agreement over whole runs |
| `LinkCodec`, `VmLink` | `vmess://` links |

## How it is modelled

- Time is a natural number of nanoseconds and does not run backwards within a run;
  `duration_cast<seconds>` truncates.
- Signed overflow, which the language leaves undefined, is taken as 32-bit wrap-around in the two
  places where the code runs into it: the base64 decoders' `val << 6` and `min_latency + 10`.
- JSON is a datatype with whole numbers; a library exception is the result `Threw`. The JSON printer
  and parser are arguments of the link codec. `EVP_EncodeBlock` and `EVP_DecodeBlock` are given as
  block coders: four characters for three bytes, a refused length or character, and zero bytes where
  the padding was.
- What the GeoIP database, the overload protector, the rate limiter (towards the admitter), probes,
  the validator's regular expressions and the disk answer are arguments.
- List iterators in the affinity table are node numbers. Entries of the admission queue are numbered
  in order of arrival; the numbers are the model's.
- `std::sort` leaves the order of equal priorities open; so does the contract of `AddCustomRule`.

## What was found

- **The default routing rule is three rules.** `src/v2rayn_manager/vm_config_builder.cpp:50-54` passes
  nested braces to `insert`, and overload resolution takes the overload for an initializer list of
  elements: not one object goes in but three arrays of two strings. `docs/USAGE.md:124-127` and
  `docs/DEPLOY.md:150-154` describe one object. A later `value("outboundTag", ...)` on such an array
  throws. The model has a parameter `Insertion`; `ThreeElements` is the code, `OneObject` the
  documentation. Theorems are stated for both, with the exact difference: `SwitchForgets`,
  `SaveLoadRoundTrip`, `SecondSaveThrows`, `RunKeepsFiles`.
- An exception in a save is not caught by the manager's operations, so there is no rollback
  (`ExceptionKeepsAddition`). A refused save after a removal puts the node back at the end
  (`RefusedRemovalReorders`), and list and file then disagree on the order (`CallSyncs`). A remarks
  file that cannot be written is not reported; what loading then gives is stated exactly
  (`RunInSync`).
- `cleanup_expired` drops index entries and leaves the list nodes. Whatever takes such a node later
  drops the key of its address again, and with it a fresh affinity: the eviction of the node, the
  invalidation of its old tag, or the next cleanup (`LostToOldNode`, `FreshLost`). Nothing in the
  program calls `cleanup_expired` of this table; without it the table is exactly the cache it is
  meant to be (`LiveHistory`).
- Leaving the admission queue does not look at the user limit again. A user can be given more than
  the limit exactly when two requests fit in the queue, have time to wait there, and there are more
  slots than the limit (`UserLimitOverrun`). The bound that always holds is `ClaimsBounded`, and it
  is reached (`ClaimsAttained`).
- Under interleaving the connection limit can be exceeded, by exactly one less than the number of
  threads (`ActiveBounded`, `BoundAttained`), and a queued request can be left behind with a slot
  free and nobody to look exactly when there are two threads, a slot and a place in the queue
  (`LostWakeup`).
- A custom rule without an identifier is skipped by `decide` although it matches
  (`IndexRefinesScan`). An `ip_cidr` rule matches every known address, whatever its pattern says:
  nothing behind the first enabled one is consulted (`NothingBehindCidr`, `CidrDecides`).
- Hosts of more than 255 bytes are sent in a CONNECT request that names another host
  (`ConnectRoundTrip`); a user name with a colon is split at it (`BasicRoundTrip`).

## Model

| member | source | states |
|---|---|---|
| Clock.WholeSecondsAre | src/concurrency/ip_affinity_table.cpp:15-16 | whole seconds, as all timeouts and windows compare them, against nanoseconds |
| Base64.EncodeBytes | src/web_server/jwt_util.cpp:15-34 | the three-bytes-a-word loop with its pushed and popped '=' yields the regrouping of the whole input read as one number |
| Base64.DecodeText | src/web_server/jwt_util.cpp:36-61 | with a 32-bit accumulator that wraps around and is never masked, every input decodes as the unbounded bit stream does |
| Base64.EmittedLow14 | src/web_server/jwt_util.cpp:56 | an emitted byte depends on the low 14 bits of the accumulator only |
| Base64.GroupArrives | src/web_server/jwt_util.cpp:53-58 | one six-bit group through the wrapping word keeps it congruent to the stream and emits the stream's next byte when there is one |
| Base64.RoundTrip | src/web_server/jwt_util.cpp:15-61 | decoding undoes encoding for byte strings of every length although padding is stripped |
| Base64.CanonicalRoundTrip | src/web_server/jwt_util.cpp:15-61 | encoding undoes decoding exactly for canonical texts: standard alphabet, no lone last character, zero spare bits |
| Base64.ForeignCharactersIgnored | src/web_server/jwt_util.cpp:50-52 | '=' and any other foreign characters anywhere do not change the result |
| Base64.AlphabetsAgree | src/web_server/jwt_util.cpp:41-43 | texts that differ in the alphabet only decode alike |
| Base64.AlphabetIs | src/web_server/jwt_util.cpp:15-18 | the encoder writes the alphabet of RFC 4648, character by character |
| WeightedRoundRobin.Scheduler.Pick | src/concurrency/load_balancer.cpp:131-153 | resize, raise, first maximum, pay back: the new vector and the choice are those of one call of the relation the laws are about |
| WeightedRoundRobin.FirstPick | src/concurrency/load_balancer.cpp:142-150 | a scheduler without a history picks the first of the largest weights |
| WeightedRoundRobin.PickUnique | src/concurrency/load_balancer.cpp:142-150 | vector and weights determine the pick |
| WeightedRoundRobin.PickBalanced | src/concurrency/load_balancer.cpp:142-150 | a pick keeps the sum at zero and every entry above minus the largest total seen |
| WeightedRoundRobin.WordSafe | src/concurrency/load_balancer.cpp:138-150 | no intermediate value leaves a range given by candidates times the largest total, so a 32-bit int holds them when that fits |
| WeightedRoundRobin.NeverRunsAhead | src/concurrency/load_balancer.cpp:134-150 | over runs with changing non-negative weights and a list that may grow, the vector sums to zero and stays above minus the largest total seen |
| WeightedRoundRobin.WindowLedger | src/concurrency/load_balancer.cpp:142-150 | over any window an entry changes by the window's length times its weight less the total for each of its picks |
| WeightedRoundRobin.BackToZero | src/concurrency/load_balancer.cpp:131-153 | after as many picks as the weights add up to, the vector is zero again |
| WeightedRoundRobin.Periodic | src/concurrency/load_balancer.cpp:131-153 | vectors and picks repeat with the total weight as period |
| WeightedRoundRobin.ExactlyFair | src/concurrency/load_balancer.cpp:131-153 | every window of total-weight many picks, wherever it starts, chooses each candidate exactly as often as its weight |
| WeightedRoundRobin.PrefixShare | src/concurrency/load_balancer.cpp:131-153 | in every prefix count times total stays below picks times weight plus total, and is not further behind than one turn per candidate |
| WeightedRoundRobin.FairService | src/concurrency/load_balancer.cpp:131-153 | exact fairness for calls of a new scheduler, whose vector starts out empty |
| Admitter.ConnectionAdmitter.RequestAdmit | src/concurrency/connection_admitter.cpp:22-90 | the response and the new state for every outcome, the place in the queue included |
| Admission.Verdict | src/concurrency/connection_admitter.cpp:28-90 | each answer if and only if its condition: accepted or queued only within the rate, not banned and not overloaded, and the first reason that applies otherwise |
| Admission.Effect | src/concurrency/connection_admitter.cpp:28-90 | a rejection changes nothing; an acceptance takes one slot and one of the user's; a queued request adds its entry and nothing else |
| Admission.ClaimsArePassed | src/concurrency/connection_admitter.cpp:22-125 | over whole runs a user holds and waits for no more connections than its requests that passed all three checks |
| Admission.WaitersPassed | src/concurrency/connection_admitter.cpp:22-155 | over whole runs everyone who waits came in with a request that passed all three checks, and the entry says what the request said and when it came |
| Admission.TimedOutAre | src/concurrency/connection_admitter.cpp:139-155 | a look at the queue times out exactly the entries that have waited the whole timeout, in nanoseconds |
| Admitter.ConnectionAdmitter.ReleaseConnection | src/concurrency/connection_admitter.cpp:92-110 | the new state, and which entries get which callback in which order |
| Admitter.ConnectionAdmitter.DequeueConnections | src/concurrency/connection_admitter.cpp:112-134 | entries leave from the front while slots are free, each counted for its user |
| Admitter.ConnectionAdmitter.CheckQueueTimeouts | src/concurrency/connection_admitter.cpp:139-155 | erasing while iterating removes exactly the timed-out entries and keeps the order of the others |
| Admitter.DequeuedSuffix | src/concurrency/connection_admitter.cpp:114-119 | what dequeueing leaves is the back of the queue |
| Admitter.NoIdleSlot | src/concurrency/connection_admitter.cpp:48-137 | after every run of calls active is within the limit, a non-empty queue means that all slots are taken, and the queue fits its size |
| Admitter.NoOvertaking | src/concurrency/connection_admitter.cpp:48-90 | a direct acceptance happens only when nobody is waiting |
| Admitter.EnqueuedOrdered | src/concurrency/connection_admitter.cpp:67-75 | the insertion point keeps reconnects first and each class in arrival order |
| Admitter.QueueOrdered | src/concurrency/connection_admitter.cpp:67-155 | in every run the queue is the waiting reconnects in arrival order, then the rest in arrival order |
| Admitter.OneFateEach | src/concurrency/connection_admitter.cpp:67-155 | every entry ever queued is waiting, admitted or timed out, exactly one of them and once |
| Admitter.ActiveIsTotal | src/concurrency/connection_admitter.cpp:83-125 | active is the sum of the users' counts and no count is zero, when releases name users who hold a connection |
| Admitter.ClaimsBounded | src/concurrency/connection_admitter.cpp:40-125 | what a user holds and waits for stays within the user limit plus the queue size less one |
| Admitter.HandedOn | src/concurrency/connection_admitter.cpp:92-125 | with all slots taken a release hands its slot to the first entry |
| UserLimit.UserLimitOverrun | src/concurrency/connection_admitter.cpp:40-155 | some proper run on a clock that does not run backwards gives a user more than the user limit if and only if the queue is on and holds two, the waiting time is positive and there are more slots than the limit |
| UserLimit.NoTimeKeeps | src/concurrency/connection_admitter.cpp:92-155 | without a waiting time every user stays within the limit, because all who wait have come after the last release |
| UserLimit.FewSlotsKeep | src/concurrency/connection_admitter.cpp:48-125 | so they do with no more slots than the limit, on proper runs |
| UserLimit.ShortQueueKeeps | src/concurrency/connection_admitter.cpp:40-125 | so they do with a queue of at most one |
| UserLimit.ClaimsAttained | src/concurrency/connection_admitter.cpp:40-81 | the bound of ClaimsBounded is reached whenever the slots suffice |
| AdmitterThreads.StepKeepsInv | src/concurrency/connection_admitter.cpp:48-137 | every step of every thread keeps slots taken plus slots about to be taken within the limit plus threads less one, and the lock with its holder |
| AdmitterThreads.ActiveBounded | src/concurrency/connection_admitter.cpp:48-125 | in every reachable state active is between zero and limit plus threads less one |
| AdmitterThreads.BoundAttained | src/concurrency/connection_admitter.cpp:48-83 | for every positive limit and number of threads some run reaches that bound |
| AdmitterThreads.NeverPopsEmpty | src/concurrency/connection_admitter.cpp:114-119 | a thread that has passed the loop test finds an entry to pop |
| AdmitterThreads.MutualExclusion | src/concurrency/connection_admitter.cpp:113-133 | no two threads are in the locked part |
| AdmitterThreads.QueueFits | src/concurrency/connection_admitter.cpp:52-76 | the queue never outgrows its size, whatever the interleaving |
| AdmitterThreads.OneThreadNotStranded | src/concurrency/connection_admitter.cpp:48-137 | with one thread no request waits between calls while a slot is free |
| AdmitterThreads.LostWakeup | src/concurrency/connection_admitter.cpp:48-137 | a state with all threads idle, a slot free and a request waiting is reachable if and only if there are at least two threads, a slot and a queue with a place |
| RateLimiter.RateLimiter.CheckConnectionRate | src/concurrency/rate_limiter.cpp:15-38 | the answer and the new record for a new address, an old window and an open one |
| RateLimiter.RateLimiter.CheckAuthRate | src/concurrency/rate_limiter.cpp:40-54 | the ban goes before the window of failures |
| RateLimiter.RateLimiter.RecordAuthFailure | src/concurrency/rate_limiter.cpp:56-81 | the new record; a first failure of an unknown address never bans |
| RateLimiter.StepWithinWindows | src/concurrency/rate_limiter.cpp:15-38 | every event keeps the number accepted since a moment within what the windows begun since can have accepted |
| RateLimiter.IntervalBound | src/concurrency/rate_limiter.cpp:15-38 | in any half-open interval of k seconds of any run at most (k+1) times the limit are accepted, one fewer after the clock's first second |
| RateLimiter.BoundAttained | src/concurrency/rate_limiter.cpp:15-81 | for every positive limit and number of seconds both bounds are reached, within the clock's first second and after it |
| RateLimiter.BanHolds | src/concurrency/rate_limiter.cpp:40-81 | no later event lifts a ban before its time |
| RateHistory.NotesAreHistory | src/concurrency/rate_limiter.cpp:15-81 | after every monotone run the limiter knows the addresses heard of, and its counts are the numbers of their connections and failures since their current windows began, windows restarting after a second and after a minute |
| RateHistory.WithinWindow | src/concurrency/rate_limiter.cpp:26-73 | whatever a window counts happened within its second, or its minute |
| RateHistory.WindowBegins | src/concurrency/rate_limiter.cpp:18-73 | a window begins with an event it counts, or with the clock |
| RateHistory.ConnectionRefusedExactly | src/concurrency/rate_limiter.cpp:15-38 | a connection is refused if and only if the address is known, the second of its window is not over, and the window has had the limit's number |
| RateHistory.BansAre | src/concurrency/rate_limiter.cpp:56-81 | a ban is in force if and only if a failure of an address already known has brought the number in its window to the limit less than the ban's duration ago |
| RateHistory.LoginRefusedExactly | src/concurrency/rate_limiter.cpp:40-81 | a login is refused if and only if such a ban is in force, or the number of failures has reached the limit in a window less than a minute old |
| IpAffinity.IpAffinityTable.LookUp | src/concurrency/ip_affinity_table.cpp:9-19 | the tag of the indexed node unless more than the timeout in whole seconds has passed |
| IpAffinity.ExpiredIs | src/concurrency/ip_affinity_table.cpp:15-17 | a record expires at the end of the second after its timeout, in nanoseconds |
| IpAffinity.IpAffinityTable.Update | src/concurrency/ip_affinity_table.cpp:21-40 | a known address is rewritten and moved to the front; a new one is pushed after evictions from the back |
| IpAffinity.IpAffinityTable.Invalidate | src/concurrency/ip_affinity_table.cpp:42-49 | node and key of an address are dropped |
| IpAffinity.IpAffinityTable.InvalidateNode | src/concurrency/ip_affinity_table.cpp:51-61 | erasing while iterating drops exactly the nodes with the tag, and their keys |
| IpAffinity.IpAffinityTable.CleanupExpired | src/concurrency/ip_affinity_table.cpp:63-72 | the keys of the expired nodes at the back are dropped; the list stays |
| IpAffinity.IpAffinityTable.Clear | src/concurrency/ip_affinity_table.cpp:74-78 | the table is empty |
| IpAffinity.StepLinked | src/concurrency/ip_affinity_table.cpp:21-78 | every operation, cleanup included, keeps each key pointing at a listed node with that address, the list within its limit and sorted by age |
| IpAffinity.Run | src/concurrency/ip_affinity_table.cpp:21-78 | the same after every run of operations with a monotone clock |
| IpAffinity.StepBijective | src/concurrency/ip_affinity_table.cpp:21-78 | every operation but cleanup keeps keys and nodes in bijection |
| IpAffinity.RunBijective | src/concurrency/ip_affinity_table.cpp:21-78 | so does every run without cleanups |
| IpAffinity.TailIsExpired | src/concurrency/ip_affinity_table.cpp:66-71 | stopping at the first fresh node from the back misses no expired one |
| IpAffinity.CleanupExact | src/concurrency/ip_affinity_table.cpp:63-72 | a key survives cleanup exactly when no node with its address has expired |
| IpAffinity.CleanupUnnoticed | src/concurrency/ip_affinity_table.cpp:9-72 | cleanup changes the answer for an address at once exactly when a fresh record has an expired twin; otherwise no lookup notices it until the table changes again |
| IpAffinity.BijectiveHasNoTwins | src/concurrency/ip_affinity_table.cpp:63-72 | no address of a bijective table has an expired twin of a fresh record |
| AffinityHistory.KeyFate | src/concurrency/ip_affinity_table.cpp:21-78 | an operation other than an address's own update drops its key exactly when it takes a node of the address, the indexed one or another; else the indexed node is unchanged |
| AffinityHistory.NeverMadeUp | src/concurrency/ip_affinity_table.cpp:9-78 | after every run of all operations a lookup gives nothing, or the tag of the latest update that nothing has invalidated, within the timeout |
| AffinityHistory.LookupIsHistory | src/concurrency/ip_affinity_table.cpp:9-78 | it gives that tag if and only if the timeout has not passed and no operation since has taken a node of the address |
| AffinityHistory.StepKeyedFirst | src/concurrency/ip_affinity_table.cpp:21-78 | every operation keeps the indexed node in front of all others of its address |
| AffinityHistory.LostToOldNode | src/concurrency/ip_affinity_table.cpp:21-72 | after every run, an operation that leaves an address's own node alone drops its key if and only if it evicts, finds expired, or erases by tag an older node of the address |
| AffinityHistory.NoneLeftBehind | src/concurrency/ip_affinity_table.cpp:21-61 | runs without cleanups leave no such nodes |
| AffinityHistory.FreshLost | src/concurrency/ip_affinity_table.cpp:33-71 | after a single cleanup a fresh affinity is lost in each of the three ways |
| LruHistory.StepInOrder | src/concurrency/ip_affinity_table.cpp:21-78 | every operation but cleanup keeps the list in the order of the addresses' latest updates, with all that is missing behind it |
| LruHistory.LiveHistory | src/concurrency/ip_affinity_table.cpp:9-78 | after any run without cleanups a lookup gives the latest tag exactly when nothing has invalidated it, fewer than the limit of other addresses were live at every moment since, and the timeout has not passed |
| LruHistory.LruIsHistory | src/concurrency/ip_affinity_table.cpp:9-40 | after any run of updates a lookup gives the latest tag exactly when fewer than the limit of other addresses were updated since and the timeout has not passed; otherwise nothing |
| LruHistory.Remembered | src/concurrency/ip_affinity_table.cpp:9-61 | whatever is done for others in between, an address is answered what was recorded for it exactly within the timeout, while others update fewer addresses than the limit |
| Health.HealthChecker.DoProbe | src/concurrency/node_health_checker.cpp:42-89 | the new record of a probed node; nothing for an unknown one |
| Health.HealthChecker.MarkNodeUnavailable | src/concurrency/node_health_checker.cpp:125-131 | status and counter after the mark |
| Health.HealthChecker.MarkNodeAvailable | src/concurrency/node_health_checker.cpp:133-139 | status and counter after the mark |
| Health.HealthChecker.GetStatus | src/concurrency/node_health_checker.cpp:95-100 | a node without a record is available |
| Health.UpdateLinked | src/concurrency/node_health_checker.cpp:71-139 | probes and marks keep the status the one the counter stands for |
| Health.CounterIsTrailing | src/concurrency/node_health_checker.cpp:71-82 | the counter is the length of the failure run the trace ends with, plus the threshold after a mark |
| Health.StatusIsTrace | src/concurrency/node_health_checker.cpp:65-88 | unavailable exactly after a mark not recovered from or at least threshold failures in a row, unstable exactly after fewer |
| Health.WithoutThreshold | src/concurrency/node_health_checker.cpp:71-139 | without a positive threshold one failure or mark takes a node down, and only a mark brings it back |
| Health.LastProbesFailed | src/concurrency/node_health_checker.cpp:65-88 | for probes alone: unavailable exactly when the last threshold ones all failed |
| Health.FailedIsLargestExcess | src/concurrency/node_health_checker.cpp:74-80 | failed_checks is the largest excess of failures over successes in any suffix of the trace |
| Health.LatencyIs | src/concurrency/node_health_checker.cpp:71-82 | the latency on record is that of the latest successful probe |
| Health.ProbesNoted | src/concurrency/node_health_checker.cpp:66-70 | all probes are counted, and the last check is the time of the last one |
| Health.NodesAreIndependent | src/concurrency/node_health_checker.cpp:66-67 | a node's record depends on its own events only |
| Health.StaysDown | src/concurrency/node_health_checker.cpp:78-88 | a node that is down stays down until a probe succeeds or it is marked available |
| LoadBalancer.LoadBalancer.GetCandidates | src/concurrency/load_balancer.cpp:24-58 | the loop collects the candidates that CandidatesAre is about, in list order |
| LoadBalancer.CandidatesAre | src/concurrency/load_balancer.cpp:24-58 | the candidates are exactly the listed nodes that are not excluded, whose status is not unavailable and whose connections (0 without a record) are below the capacity, each with its own figures and the weight on record or 100 |
| LoadBalancer.LoadBalancer.DoLeastConnections | src/concurrency/load_balancer.cpp:155-161 | the first of the least loaded |
| LoadBalancer.LeastLoaded | src/concurrency/load_balancer.cpp:155-161 | no candidate has fewer connections, and none before it has as few |
| LoadBalancer.LoadBalancer.DoLowestLatency | src/concurrency/load_balancer.cpp:163-176 | the two loops compute the choice FastestIs is about, the overflow without a measured latency included |
| LoadBalancer.FastestIs | src/concurrency/load_balancer.cpp:163-176 | with a measured latency the choice is within 10 of every measured one, and none so fast has fewer connections |
| LoadBalancer.UnmeasuredIsLeast | src/concurrency/load_balancer.cpp:163-176 | without a measured latency the wrapped limit shuts everybody out, and the least loaded is chosen |
| LoadBalancer.LoadBalancer.DoWeightedRoundRobin | src/concurrency/load_balancer.cpp:131-153 | one call of the scheduler over the candidates' weights |
| LoadBalancer.LoadBalancer.Choose | src/concurrency/load_balancer.cpp:84-97 | each strategy's choice, and what it does to the turn counter and the running weights |
| LoadBalancer.LoadBalancer.TakeAffinity | src/concurrency/load_balancer.cpp:63-77 | a usable affinity is taken, an unusable one dropped |
| LoadBalancer.LoadBalancer.Remember | src/concurrency/load_balancer.cpp:99-101 | a choice becomes the client's affinity when affinities are on |
| LoadBalancer.LoadBalancer.SelectNode | src/concurrency/load_balancer.cpp:60-106 | affinity first, else strategy, else nothing, with the whole new state; what is returned is neither unavailable nor at its capacity, and there is nothing only when no listed node is so |
| LoadBalancer.SelectionIsOpen | src/concurrency/load_balancer.cpp:28-106 | every node returned, by affinity too, is neither unavailable nor at its capacity; there is none exactly when no listed node is so |
| LoadBalancer.AffinityFirst | src/concurrency/load_balancer.cpp:63-77 | the affinity is what is returned if and only if affinities are on, it is fresh and its node is neither unavailable nor at its capacity |
| LoadBalancer.ChoiceRecorded | src/concurrency/load_balancer.cpp:79-101 | a choice by strategy leaves the affinity table as after an update for that client and node |
| LoadBalancer.ComesBack | src/concurrency/load_balancer.cpp:60-106 | the client's next selection returns the recorded node from its affinity exactly while the record is not too old and the node open, with other clients' selections and failovers in between |
| LoadBalancer.MissForgets | src/concurrency/load_balancer.cpp:63-82 | a client for whom no node was found is remembered no longer |
| Fairness.WeightedFair | src/concurrency/load_balancer.cpp:24-153 | with fixed lists, health, loads and weights and affinities off, any window of as many weighted selections as the open nodes' weights add up to returns each open node exactly as often as its weight, 100 where none is set, and no other node |
| Fairness.TurnsFair | src/concurrency/load_balancer.cpp:84-129 | any window of as many round-robin selections as there are open nodes returns each once for each time it is listed, as long as the turn counter does not wrap |
| Fairness.LeastIsSelected | src/concurrency/load_balancer.cpp:24-161 | a node selected by load has no more connections than any other open node |
| Fairness.FastIsSelected | src/concurrency/load_balancer.cpp:24-176 | a node selected by latency is within 10 of every measured open node, once any has been measured |
| LoadBalancer.LoadBalancer.SelectFallbackNode | src/concurrency/load_balancer.cpp:108-124 | the fallback, which is listed, not excluded and neither unavailable nor at its capacity, or none exactly when no such node exists; and the affinity it leaves |
| LoadBalancer.FallbackIsBest | src/concurrency/load_balancer.cpp:108-124 | a fallback is listed, not excluded, neither unavailable nor at its capacity, and least loaded of such nodes; there is none exactly when no such node exists |
| LoadBalancer.RememberedWhileUsable | src/concurrency/load_balancer.cpp:63-75 | the recorded node is the client's affinity exactly while the record is not too old and the node neither unavailable nor at its capacity, after any operations for other clients of which fewer than the limit get a node |
| LoadBalancer.SelectionConcernsClient | src/concurrency/load_balancer.cpp:60-106 | to the affinity table a selection is a run of updates and invalidations of its own client |
| LoadBalancer.OneMoreClient | src/concurrency/load_balancer.cpp:60-124 | so it is one of the operations for others to every other client, and adds at most one address |
| Failover.FailoverHandler.OnConnectionFailed | src/concurrency/failover_handler.cpp:11-38 | the redirection, which is made if and only if retries are left and another node is open, the mark on the failed node, and the client's new affinity |
| Failover.RedirectsExactly | src/concurrency/failover_handler.cpp:16-31 | a failure is redirected if and only if retries are left and some listed node other than the failed one is neither unavailable nor at its capacity |
| Failover.NextIsBest | src/concurrency/failover_handler.cpp:22-37 | a redirection goes to a listed node other than the failed one that is neither unavailable nor at its capacity, the least loaded of such nodes, with one more retry used |
| Failover.TriedAreDown | src/concurrency/failover_handler.cpp:22-25 | all nodes a chain has tried are down while nothing recovers |
| Failover.NeverRevisits | src/concurrency/failover_handler.cpp:11-38 | the nodes a chain tries are pairwise distinct for every retry limit, whatever else happens to loads and lists |
| Failover.ChainStops | src/concurrency/failover_handler.cpp:16-20 | a chain has at most as many redirections as retries are left, and then finds nothing |
| Failover.EndsForWantOfNodes | src/concurrency/failover_handler.cpp:11-38 | a chain ends before its retries are used up exactly when no other node is open |
| Failover.ClientStays | src/concurrency/failover_handler.cpp:22-37 | after a failover the client's next selection returns the node it was redirected to from its affinity, exactly while the record is not too old and the node neither unavailable nor at its capacity, with other clients' selections and failovers in between |
| RouteEngine.Engine.constructor | src/route_decision/route_engine.cpp:13-31 | the default action, and an index of the loaded rules |
| RouteEngine.Engine.BuildDomainIndex | src/route_decision/route_engine.cpp:213-233 | the index is that of the built-in and then the custom rules |
| RouteEngine.Engine.AddToIndex | src/route_decision/route_engine.cpp:217-224 | an enabled exact rule overwrites, an enabled suffix rule is appended |
| RouteEngine.Engine.AddCustomRule | src/route_decision/route_engine.cpp:116-123 | the rules are a permutation with the new one, sorted by falling priority; the index stays as it was and stays sound |
| RouteEngine.Engine.MatchCustomRules | src/route_decision/route_engine.cpp:52-72 | the first custom rule that matches |
| RouteEngine.Engine.MatchDomainRules | src/route_decision/route_engine.cpp:74-88 | the exact entry, else the first suffix entry |
| RouteEngine.LocationDecides | src/route_decision/route_engine.cpp:33-101 | the country decides exactly the requests no rule matches whose address is known and can be looked up, the default exactly the others no rule matches |
| RouteEngine.DecisionIs | src/route_decision/route_engine.cpp:33-101 | by the places of the rules, with disabled ones out of account: the first custom rule that applies, else the last built-in one for the host, else the first built-in one for a domain it is in, else country or default |
| RouteEngine.EndsWithIs | src/route_decision/route_engine.cpp:61-63 | a host matches a suffix rule exactly when it is something followed by the pattern |
| RouteEngine.NothingBehindCidr | src/route_decision/route_engine.cpp:54-71 | with a known address the first enabled address rule ends the scan, whatever its pattern and whatever stands behind it |
| RouteEngine.CidrDecides | src/route_decision/route_engine.cpp:33-71 | then neither index, location nor default is consulted, unless the matching rule has no identifier |
| RouteEngine.Engine.Decide | src/route_decision/route_engine.cpp:33-50 | the decision, which is the one the rules read exactly when the first custom match has an identifier |
| RouteEngine.IndexRefinesScan | src/route_decision/route_engine.cpp:33-101 | for an index from the built-in rules and some of the present custom rules, the indexed decision equals the index-free cascade exactly when the first custom match, if any, has an identifier |
| RouteEngine.ExactLookup | src/route_decision/route_engine.cpp:217-232 | exact entries that come from custom rules are never reached: the last built-in exact rule decides |
| RouteEngine.SuffixLookup | src/route_decision/route_engine.cpp:80-86 | neither are suffix entries: the first built-in suffix rule decides |
| RouteEngine.FirstIsHighest | src/route_decision/route_engine.cpp:52-123 | after an addition the custom rule chosen has the highest priority of all that match |
| Session.HandleGreeting | src/proxy_core/session.cpp:312-338 | exactly when a greeting is bad, short, acceptable or without a usable method |
| Session.LoginRoundTrip | src/proxy_core/session.cpp:362-388 | every login message is read as sent, and no proper prefix of it is taken for one |
| Session.LoginVerdict | src/proxy_core/session.cpp:362-370 | exactly the messages without the known version are turned down |
| Session.BuildConnect | src/proxy_core/session.cpp:698-708 | the pushes build the request, with the length byte cut to eight bits |
| Session.ConnectRoundTrip | src/proxy_core/session.cpp:424-470 | the parser reads the built request back exactly for hosts of at most 255 bytes |
| Session.RequestRoundTrip | src/proxy_core/session.cpp:424-470 | a request for an IPv4 address, a name or an IPv6 address is read as sent, and no proper prefix of it is taken for one |
| Session.RequestVerdict | src/proxy_core/session.cpp:424-483 | exactly which messages are turned down as invalid, for their command, or for their kind of address |
| Session.DecodeCredentials | src/proxy_core/session.cpp:233-248 | the inline decoder yields what the unbounded stream gives for the text before the first foreign character |
| Session.CredentialBytes | src/proxy_core/session.cpp:239-248 | padded or not, encoded bytes decode to themselves |
| Session.BasicRoundTrip | src/proxy_core/session.cpp:227-253 | a header is read as the user and password it was made from exactly when the user name has no colon |
| Decimal.ToStringInjective | src/v2rayn_manager/vm_node_manager.cpp:337 | different numbers print differently |
| Decimal.ParseToString | src/v2rayn_manager/vm_link_codec.cpp:79-86 | every 32-bit int survives printing and parsing, and no other number is parsed |
| Decimal.ParseLenient | src/v2rayn_manager/vm_link_codec.cpp:79-86 | white space before, a plus sign and anything after the digits make no difference |
| Decimal.NothingToParse | src/v2rayn_manager/vm_link_codec.cpp:79-86 | without a digit or sign after the white space there is no number |
| ConfigBuilder.BuildFullConfig | src/v2rayn_manager/vm_config_builder.cpp:4-84 | the whole configuration, exceptions included, other keys kept |
| ConfigBuilder.BuildKeeps | src/v2rayn_manager/vm_config_builder.cpp:8-83 | no key but the four changes, nor any key of the routing but its rules; inbounds that are there and a log stay; afterwards all four are there |
| ConfigBuilder.FilledIn | src/v2rayn_manager/vm_config_builder.cpp:60-81 | what is filled in where nothing was: SOCKS and HTTP inbounds on two local ports and a log of warnings |
| ConfigBuilder.BuildOutbounds | src/v2rayn_manager/vm_config_builder.cpp:16-23 | one outbound a node in order, then direct and block |
| ConfigBuilder.BuildRouting | src/v2rayn_manager/vm_config_builder.cpp:30-58 | the routing object, created when missing, with the new rules and its other keys |
| ConfigBuilder.BuildRules | src/v2rayn_manager/vm_config_builder.cpp:35-55 | the loop that redirects rules and the default put before them |
| ConfigBuilder.AddDefaults | src/v2rayn_manager/vm_config_builder.cpp:60-81 | inbounds and log are added only where missing |
| ConfigBuilder.RedirectsVmessOnly | src/v2rayn_manager/vm_config_builder.cpp:39-46 | redirection goes through exactly when every rule is an object with a string tag or none; then only the tags of vmess rules change |
| ConfigBuilder.RulesAfterBuild | src/v2rayn_manager/vm_config_builder.cpp:35-57 | every vmess rule carries the active tag, all other rules keep content and order, and a default is added exactly when there was no vmess rule |
| ConfigBuilder.DefaultSendsAll | src/v2rayn_manager/vm_config_builder.cpp:49-55 | the default, as one object, comes first and sends all TCP and all UDP to the active tag |
| ConfigBuilder.ElementsAreMembers | src/v2rayn_manager/vm_config_builder.cpp:50-54 | the three elements are the members of that object, as pairs |
| ConfigBuilder.RulesForget | src/v2rayn_manager/vm_config_builder.cpp:35-57 | rules rebuilt for b after a are those built for b at once, exactly when a is a vmess tag and, for three elements, a vmess rule was there |
| ConfigBuilder.SwitchForgets | src/v2rayn_manager/vm_config_builder.cpp:4-84 | the same for whole configurations and any node lists: switching forgets history, rebuilding is a fixpoint |
| NodeParser.H2RoundTrip | src/v2rayn_manager/vm_node_manager.cpp:118-124 | HTTP/2 settings with any hosts are read back |
| NodeParser.StreamRoundTrip | src/v2rayn_manager/vm_node_manager.cpp:103-147 | stream settings of the five transports are read back, but for what is not in use |
| NodeParser.OutboundRoundTrip | src/v2rayn_manager/vm_node_manager.cpp:83-150 | parsing undoes building an outbound, but for remark and settings not in use |
| NodeParser.SparseOutbound | src/v2rayn_manager/vm_node_manager.cpp:83-150 | an outbound that says only its tag and transport gives a new node with these |
| NodeParser.SparseTls | src/v2rayn_manager/vm_node_manager.cpp:103-147 | stream settings without a transport mean TCP, and empty TLS settings are those of a new node |
| ConfigLoader.NodesRoundTrip | src/v2rayn_manager/vm_node_manager.cpp:29-55 | loading what saving wrote gives the nodes in order with their remarks, inside whatever else the configuration holds |
| ConfigLoader.ConfiguredNodes | src/v2rayn_manager/vm_node_manager.cpp:29-42 | the saved configuration alone holds the nodes in order without their remarks |
| ConfigLoader.RemarksRead | src/v2rayn_manager/vm_node_manager.cpp:44-55 | nodes get the remarks that the list whose remarks were written has for their tags |
| ConfigLoader.SavedRulesScan | src/v2rayn_manager/vm_node_manager.cpp:62-73 | what the scan for the active tag finds in saved rules, and when it throws |
| ConfigLoader.FirstVmessIs | src/v2rayn_manager/vm_node_manager.cpp:62-73 | by place: the first vmess rule is found, unless a malformed one comes before it |
| ConfigLoader.LoadedActive | src/v2rayn_manager/vm_node_manager.cpp:62-80 | the active tag after loading is the first vmess rule's, else the one from before, else the first node's |
| ConfigLoader.LoadThrows | src/v2rayn_manager/vm_node_manager.cpp:19-81 | loading throws exactly for nodes or remarks that cannot be read, with all as it was, or for a malformed rule before the first vmess rule, with the nodes in place |
| ConfigLoader.SaveLoadRoundTrip | src/v2rayn_manager/vm_node_manager.cpp:19-81 | save and load restore nodes, and the active tag exactly when it is a vmess tag or the first node's; loading throws exactly when the default went in as three elements |
| NodeManager.Manager.LoadFromConfig | src/v2rayn_manager/vm_node_manager.cpp:19-81 | the new list and active tag, and what is left when an exception is thrown |
| NodeManager.Manager.SaveToConfig | src/v2rayn_manager/vm_node_manager.cpp:351-384 | both files, or a refusal, or an exception |
| NodeManager.BuiltIsValid | src/v2rayn_manager/v2rayn_config.cpp:26-31 | what the builder makes always passes the check before writing |
| NodeManager.SaveOutcome | src/v2rayn_manager/vm_node_manager.cpp:354-365 | a save throws exactly when there is an active tag and a malformed rule, and is refused exactly when it does not throw and the disk fails |
| NodeManager.Manager.IsTagUnique | src/v2rayn_manager/vm_node_manager.cpp:386-391 | no node but the excluded one has the tag |
| NodeManager.Manager.AddNode | src/v2rayn_manager/vm_node_manager.cpp:171-192 | reply and whole new state, rollback included |
| NodeManager.Manager.UpdateNode | src/v2rayn_manager/vm_node_manager.cpp:194-219 | reply and whole new state, with the rollback that searches for the new tag |
| NodeManager.Manager.RemoveNode | src/v2rayn_manager/vm_node_manager.cpp:221-252 | reply and whole new state, with the rollback to the end |
| NodeManager.Manager.ImportFromLink | src/v2rayn_manager/vm_node_manager.cpp:305-327 | reply and whole new state under the least free tag |
| NodeManager.Manager.SetActiveNode | src/v2rayn_manager/vm_node_manager.cpp:274-290 | the active tag changes only to a listed one |
| NodeManager.GenerateAutoTag | src/v2rayn_manager/vm_node_manager.cpp:333-344 | the search ends with the least free number, at most one more than there are nodes |
| NodeManager.LeastFreeIs | src/v2rayn_manager/vm_node_manager.cpp:333-344 | the number found is the least positive one whose tag no node has |
| NodeManager.Pigeonhole | src/v2rayn_manager/vm_node_manager.cpp:335-343 | n nodes cannot take the first n + 1 generated tags |
| NodeManager.AddKeepsDistinct | src/v2rayn_manager/vm_node_manager.cpp:171-192 | tags stay non-empty and pairwise distinct over an addition whatever its outcome |
| NodeManager.ChangeKeepsDistinct | src/v2rayn_manager/vm_node_manager.cpp:194-219 | tags stay non-empty and pairwise distinct over a change whatever its outcome |
| NodeManager.RemoveKeepsDistinct | src/v2rayn_manager/vm_node_manager.cpp:221-252 | tags stay non-empty and pairwise distinct over a removal whatever its outcome |
| NodeManager.ImportKeepsDistinct | src/v2rayn_manager/vm_node_manager.cpp:305-327 | tags stay non-empty and pairwise distinct over an import whatever its outcome |
| NodeManager.RefusedAddUndone | src/v2rayn_manager/vm_node_manager.cpp:181-185 | a refused addition leaves everything as it was |
| NodeManager.RefusedChangeUndone | src/v2rayn_manager/vm_node_manager.cpp:209-215 | a refused change leaves everything as it was: the search finds the changed node |
| NodeManager.RefusedImportUndone | src/v2rayn_manager/vm_node_manager.cpp:319-323 | a refused import leaves everything as it was |
| NodeManager.RefusedRemovalReorders | src/v2rayn_manager/vm_node_manager.cpp:240-244 | a refused removal leaves the same nodes, and the same list exactly when it was not tried or the node was the last |
| NodeManager.ExceptionKeepsAddition | src/v2rayn_manager/vm_node_manager.cpp:176-185 | after an exception the new node stays in the list, unsaved |
| NodeOutcomes.AddOutcome | src/v2rayn_manager/vm_node_manager.cpp:171-192 | an addition is tried exactly for an accepted node with a new tag; then it is done exactly with well-formed rules and a good disk, appends the node and keeps the active tag; it throws exactly with a malformed rule; and is refused otherwise |
| NodeOutcomes.AddLoads | src/v2rayn_manager/vm_node_manager.cpp:19-192 | after it the files have the node under its tag, once, with its remark if that could be written |
| NodeOutcomes.ChangeOutcome | src/v2rayn_manager/vm_node_manager.cpp:194-219 | the same for an update, tried exactly for an accepted node whose old tag is listed and whose tag is no other node's: the given node takes the place of the one of the old tag, the rest of the list stays |
| NodeOutcomes.ChangeLoads | src/v2rayn_manager/vm_node_manager.cpp:19-219 | after it the files have the given node under its tag, once |
| NodeOutcomes.RemoveOutcome | src/v2rayn_manager/vm_node_manager.cpp:221-252 | the same for a removal, tried exactly for a listed tag among two nodes or more: the list without that node |
| NodeOutcomes.RemoveLoads | src/v2rayn_manager/vm_node_manager.cpp:19-252 | after it the files have no node of that tag |
| NodeOutcomes.ImportOutcome | src/v2rayn_manager/vm_node_manager.cpp:305-327 | the same for an import: the decoded node is appended with the tag of the least free number |
| NodeOutcomes.ImportLoads | src/v2rayn_manager/vm_node_manager.cpp:19-327 | after it the files have the node under that tag, once |
| NodeManager.SecondSaveThrows | src/v2rayn_manager/vm_config_builder.cpp:25-57 | after a first save of a non-empty list into rules without a vmess rule, every later save of one throws, with an active tag or without (three elements) |
| NodeSync.SaveSyncs | src/v2rayn_manager/vm_node_manager.cpp:351-384 | a save that is done leaves a configuration that holds the list in order, and the list's remarks or, if they cannot be written, the old ones; one that is not changes nothing |
| NodeSync.RefusedRemoveSyncs | src/v2rayn_manager/vm_node_manager.cpp:240-244 | a refused removal keeps the configuration's nodes those of the list, in the list's order exactly when that order did not change |
| NodeSync.CallSyncs | src/v2rayn_manager/vm_node_manager.cpp:171-384 | any call that does not throw, on any disk, keeps the configuration's nodes those of the list; a done one restores the order; order is lost exactly by a refused removal that moves its node; and what it does to the remarks |
| NodeSync.SyncIs | src/v2rayn_manager/vm_node_manager.cpp:19-60 | loading gives the list exactly when the configuration has its order and the remarks file its remarks |
| NodeSync.RemarksExact | src/v2rayn_manager/vm_node_manager.cpp:51-55 | an older remarks file fits exactly when each node's remark is the one its tag had then |
| NodeSync.CallSteady | src/v2rayn_manager/vm_node_manager.cpp:171-384 | from well-formed rules (and, for three elements, a vmess rule and only vmess tags activated) no call throws, and that stays so |
| NodeSync.RunKeepsFiles | src/v2rayn_manager/vm_node_manager.cpp:171-384 | over whole runs, whatever the disk fails to write, nothing throws, tags stay distinct, and the configuration holds the nodes of the list, in order unless a refused removal moved one |
| NodeSync.RunInSync | src/v2rayn_manager/vm_node_manager.cpp:19-384 | after such a run loading both files gives the list exactly when the order is the same and each node has the remark its tag had when the remarks were last written |
| NodeSync.ParsedIsUsed | src/v2rayn_manager/vm_node_manager.cpp:83-150 | what the parser makes of any outbound has a tag and no settings that are not in use |
| NodeSync.LoadedInSync | src/v2rayn_manager/vm_node_manager.cpp:19-81 | a manager that has loaded any two files is in agreement with them |
| LinkCodec.EncodeText | src/v2rayn_manager/vm_link_codec.cpp:5-14 | block encoding, stripping NULs and stripping '=' gives unpadded base64 |
| LinkCodec.DecodeText | src/v2rayn_manager/vm_link_codec.cpp:16-29 | padding to a multiple of four, block decoding and stripping zero bytes; nothing on a refusal |
| LinkCodec.DecodeUrlSafe | src/v2rayn_manager/vm_link_codec.cpp:31-38 | the same after translating the URL-safe alphabet in place |
| LinkCodec.BlockRoundTrip | src/v2rayn_manager/vm_link_codec.cpp:5-29 | the block decoder gives back the data and one zero byte for each padding character |
| LinkCodec.TextRoundTrip | src/v2rayn_manager/vm_link_codec.cpp:5-38 | strip, pad, decode and strip again restore the data exactly when it does not end in a zero byte |
| LinkCodec.JoinHosts | src/v2rayn_manager/vm_link_codec.cpp:151-155 | the loop joins the hosts with commas |
| LinkCodec.SplitHosts | src/v2rayn_manager/vm_link_codec.cpp:103-111 | the find loop yields the pieces between commas |
| LinkCodec.SplitJoin | src/v2rayn_manager/vm_link_codec.cpp:103-155 | splitting undoes joining for non-empty lists of hosts without commas |
| LinkCodec.HostsSurvive | src/v2rayn_manager/vm_link_codec.cpp:102-159 | a host list survives exactly when no host has a comma and it is not the list of one empty host |
| VmLink.Export | src/v2rayn_manager/vm_link_codec.cpp:128-175 | the fields filled in one by one are the link's object, printed and encoded |
| VmLink.ExportTransport | src/v2rayn_manager/vm_link_codec.cpp:140-169 | type, host and path of each transport |
| VmLink.Decode | src/v2rayn_manager/vm_link_codec.cpp:40-126 | a link's node, or why there is none |
| VmLink.PlainRoundTrip | src/v2rayn_manager/vm_link_codec.cpp:66-88 | the fields every transport has are read back from the link's object, port and alterId from their digits |
| VmLink.PortMeans | src/v2rayn_manager/vm_link_codec.cpp:76-81 | a port means the same as a number and as its digits, itself where it fits, and is 443 when missing |
| VmLink.AlterIdMeans | src/v2rayn_manager/vm_link_codec.cpp:83-88 | so does an alterId, which is 0 when missing |
| VmLink.SparseLink | src/v2rayn_manager/vm_link_codec.cpp:66-124 | a link that says only its transport gives a new node with that transport |
| VmLink.DecodedIsUsed | src/v2rayn_manager/vm_link_codec.cpp:66-124 | what any link is read as has no tag and no settings that are not in use, and the link's server name if TLS is on |
| VmLink.UrlSafeLink | src/v2rayn_manager/vm_link_codec.cpp:31-57 | a link in the URL-safe alphabet is read as the same link in the standard one |
| VmLink.PrefixTells | src/v2rayn_manager/vm_link_codec.cpp:40-45 | a link is turned down for its prefix exactly when it does not begin with it |
| VmLink.LinkFormat | src/v2rayn_manager/vm_link_codec.cpp:128-159 | an exported link carries version 2, and no header type where the transport has none |
| VmLink.DecodeTransport | src/v2rayn_manager/vm_link_codec.cpp:95-119 | the transport's fields with their defaults |
| VmLink.AcceptedIsSendable | src/v2rayn_manager/vm_node_validator.cpp:4-32 | every node the validator accepts meets what the round trip asks for |
| VmLink.FieldsRoundTrip | src/v2rayn_manager/vm_link_codec.cpp:66-171 | the link's object is read back as the node without what a link cannot carry, exactly when its HTTP/2 hosts survive |
| VmLink.LinkRoundTrip | src/v2rayn_manager/vm_link_codec.cpp:40-175 | so is the whole link, through base64, for every JSON printer and parser that agree on the object |
| VmLink.LinkedIsAccepted | src/v2rayn_manager/vm_node_validator.cpp:4-32 | what comes back of an accepted node is accepted again |

## Left out

- Sockets, timers, threads, signals, logging, audit, files, the Crow routes, the web interface, OpenSSL's HMAC and PBKDF2, MaxMind and regular expressions: their outcomes are arguments where a modelled function needs them.
- JSON text: numbers with a fraction, the printer, the parser and the printer's exception on invalid UTF-8 are not part of this model.
- `EVP_DecodeBlock` trims white space and end marks at both ends of its input; the block coder here does not.
- Callbacks of the admitter run after its methods here; a callback that calls the admitter again, and changing limits during a run, are not modelled.
- The session as a client of the admitter: it admits with an empty user name and releases with the client's name, so the model's proper runs are not what it does.
- Split reads of SOCKS5 messages, printing of IPv4 and IPv6 addresses, and the HTTP request line.
- Widths: the counters of the rate limiter, of the health checker and of connections are unbounded; the weights' sum is bounded by WordSafe only.
- WeightedRoundRobin.NeverRunsAhead: does not cover a candidate list that shrinks, because truncation breaks the zero sum.
- LoadBalancer.UnmeasuredIsLeast: takes the overflow of the sum as wrap-around, because the language leaves it undefined.
- LruHistory.LiveHistory: leaves out cleanups, after which the answer depends on the nodes left behind; with them it is AffinityHistory.LookupIsHistory, in terms of the tables met.
- UserLimit.ClaimsAttained: says nothing for limits with fewer slots than the user limit less one, where a user cannot hold that many.
- IpAffinity.IpAffinityTable.Update: asks for a positive record limit, because taking the back of an empty list is undefined.
- VmLink.LinkRoundTrip: asks for a JSON text that does not end in a zero byte, which no printed object does.
- `remove_custom_rule` and `reload_rules`: the first leaves entries of a removed rule in the index, the second reloads from a placeholder path.
- The loaders of rule files, and rules removed or loaded while the engine runs.
- `reorder_nodes`, which reads the tags of moved-from elements.
- Probes and connection counters that adding and removing a node trigger, `node_to_json`, `json_to_node` and the masking of user ids.
- The v2ray process and its restarts.
- Plain round robin beyond its turn counter, metrics, bounded log buffers, pagination and other easy members.

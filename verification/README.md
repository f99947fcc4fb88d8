# disburse: routing, admission and freshness

disburse is an RPC proxy in front of several Solana providers ("upstreams"). This
project models the parts of it that decide things and keep state, and proves what they
keep over whole runs.

| files | what they model |
|---|---|
| `circuit.dfy`, `admission.dfy`, `cooldown.dfy`, `one_probe.dfy`, `deadline.dfy`, `probe_slot.dfy` | one upstream's circuit breaker and permits: a class with the methods of `client.rs`, and the same protocol as a step system of any number of request tasks, a health monitor and a clock, interleaved at every lock |
| `hysteresis.dfy`, `scoring.dfy`, `pool.dfy`, `selection.dfy` | scoring, the sticky leader, the select-and-admit loop |
| `ewma.dfy`, `window.dfy`, `median.dfy`, `stats.dfy` | rolling statistics, kept equal to functions of everything ever recorded |
| `tip.dfy`, `health.dfy` | the global tip slot under concurrent compare-exchange loops; one monitor round |
| `bits.dfy`, `shortvec.dfy`, `transaction.dfy` | compact-u16 and the transaction prefix parser, against a serializer |
| `blockhash_cache.dfy`, `freshness.dfy` | the LRU blockhash cache and the accept/reject gate |
| `metrics.dfy`, `accounting.dfy` | the counters, and their books over every interleaving |
| `rpc.dfy` | one attempt, the retry loop, the freshness check |
| `config.dfy`, `reals.dfy`, `wrappers.dfy` | settings and their bounds; facts about products; `Option` |

Instants are natural numbers of milliseconds on a monotone clock. Scores, latencies and
rates are exact reals. An upstream's response, the clock and what other tasks do while
a request is suspended are parameters, so every statement is for all of them.
`Config.Valid` holds the bounds that `src/config.rs:166-227` checks at startup; the
unique names are `Pool.UniqueNames`.

## Where the code and its own description part ways

The repository's README says that a performer is not swapped for a close one back and
forth and that, after a cooldown, exactly one probe decides. The code meets this under
conditions:

- Until the next trip there is one probe at a time in every run if and only if no probe
  is out, or a single one is and the circuit is closed or shows it
  (`OneProbe.OneProbeIff`); so a trip keeps it that way if and only if it lands while no
  probe is out (`OneProbe.TripKeepsOneProbeIff`). A trip on a live probe can
  cost one more each time (`Admission.PermitsAndProbes`, `ProbeSlot.ProbeBoundIsTight`), and a stale probe
  decides for a fresh one (`ProbeSlot.StaleProbeDecides`).
- What a user can check beforehand: whatever the trips, there is at most one live probe
  in every run if and only if the shorter of the request deadline and the attempt timeout,
  plus the time a trip may wait for the lock, is shorter than the cooldown
  (`Deadline.OneProbeUnderDeadlineIff`). With the defaults, 15 s and 10 s, any cooldown
  clearly above 10 s is on the safe side; the startup check does not ask.
- A deadline leaks the probe slot if and only if it drops the only live probe while the
  circuit shows one (`ProbeSlot.LeakIff`). The upstream serves nobody until the next trip
  if and only if its slot has leaked (`ProbeSlot.OutOfRotationIffLeaked`), and one
  deadline is enough (`ProbeSlot.OneCancelLeaks`).
- A trip keeps requests out for the whole cooldown if and only if no request sits
  between a probe grant and a refusal by the semaphore (`Cooldown.TripHoldsIff`). `trip`
  computes its deadline before it has the lock, so the stamp and the write are two steps.
- With scores below the 1e-9 tie tolerance the leader can alternate although no score
  moves (`Hysteresis.TinyScoresFlap`), and valid settings produce such scores
  (`Scoring.TinyIsScored`); when it cannot is `Hysteresis.FixedScoresStableIff`,
  and a top score of at least the tolerance over the margin is enough
  (`Hysteresis.LargeScoresStable`).
- A best `sendTransaction` median of zero makes every score zero
  (`Scoring.ZeroMedianTiesAll`); who can be crowned and who keeps the seat, in
  milliseconds, is `Scoring.SendElectableIff` and `Scoring.SendHeldIff`. A median of zero
  needs exchanges during which the clock did not move; that it can be recorded is not
  shown.
- The clock is read before a deque's lock is taken, so the timestamps of one upstream can
  be out of order; one millisecond is then enough, for any window, to hide a stale sample
  behind a newer one (`Window.OutOfOrderKeepsStale`). The deque is the filtered history
  after every later push, for every window, if and only if the timestamps are in order
  (`Window.FilteredIffInOrder`).

## Model

| member | source | states |
|---|---|---|
| Circuit.Upstream.PassCircuit | src/upstream/client.rs:102-125 | the locked circuit step: who passes, who is the probe, and the circuit left behind |
| Circuit.Upstream.TryAcquire | src/upstream/client.rs:127 | a permit is taken exactly when one is available |
| Circuit.Upstream.TryAdmit | src/upstream/client.rs:101-139 | an uninterrupted admission: the answer, the circuit and the permits after it, the probe slot handed back on refusal |
| Circuit.Upstream.Trip | src/upstream/client.rs:90-94 | open until the stamp plus the cooldown, whatever the circuit was |
| Circuit.Upstream.SettleProbe | src/upstream/client.rs:143-159 | acts on a probe in flight only: success closes, failure re-opens for a full cooldown |
| Circuit.Upstream.IsDropped | src/upstream/client.rs:81-86 | open and the cooldown not over |
| Circuit.Upstream.Release | src/proxy/rpc.rs:225-267 | the permit comes back when the attempt's scope ends |
| Circuit.RefusalIff | src/upstream/client.rs:96-139 | refused exactly by an unexpired Open, a probe in flight or no permit; a refusal changes only an expired Open, to HalfOpen with the slot free |
| Admission.GateInv | src/upstream/client.rs:102-125 | the circuit step keeps permits conserved, probes bounded and the probe slot owned, from any such state |
| Admission.AcquireInv | src/upstream/client.rs:127-138 | so does the semaphore step, granted or refused |
| Admission.FinishInv | src/upstream/client.rs:130-159 | so do write-back, settlement, release and cancellation |
| Admission.StepInv | src/upstream/client.rs:90-159 | every step of every task, the monitor and the clock keeps the invariant |
| Admission.AdmitSteps | src/upstream/client.rs:101-139 | the steps of one task with nothing in between come to the uninterrupted admission: same answer, circuit and permits |
| Admission.PermitsAndProbes | src/upstream/client.rs:90-159 | in every interleaving: available plus held permits are the cap, and outstanding probes never exceed one, if the circuit shows a probe, plus the trips that landed on a probe; without such trips at most one |
| Admission.ProbeDecides | src/upstream/client.rs:143-159 | while no trip has landed on a probe, a settling probe's own outcome closes or re-opens the circuit |
| Admission.OwnersStep | src/upstream/client.rs:101-159 | how many probes each step adds to or takes from those outstanding |
| OneProbe.OneProbeIff | src/upstream/client.rs:101-159 | until the next trip at most one probe is out at every point of every run, if and only if none is now, or a single one is and the circuit is closed or shows it |
| OneProbe.TripKeepsOneProbeIff | src/upstream/client.rs:90-94 | after a trip every continuation up to the next one keeps at most one probe if and only if the trip landed while none was out |
| OneProbe.OneProbeWhileTripsFindNone | src/upstream/client.rs:90-159 | from the start, however many trips: at most one probe as long as each trip lands while none is out |
| OneProbe.SafeStep | src/upstream/client.rs:90-159 | every step but a trip on a live probe keeps the one-probe condition |
| Deadline.OneProbeUnderDeadlineIff | src/proxy/rpc.rs:302-310 | with requests dropped at their deadline, attempts ended at their timeout and trips waiting at most a given time for the lock: at most one live probe in every run, whatever the trips, if and only if the shorter of the first two plus the third is shorter than the cooldown |
| Deadline.CoveredRun | src/proxy/rpc.rs:89-90 | under that condition every step keeps every live probe out of reach of a second grant |
| Deadline.SecondProbe | src/upstream/health.rs:78-81 | otherwise some run, within deadline and timeout, has two probes out, both in flight if there are two permits |
| Deadline.Untimed | src/proxy/rpc.rs:89-90 | timed runs are runs of the protocol |
| Cooldown.ShutRun | src/upstream/client.rs:90-139 | a shut circuit stays shut over every run until its deadline, whatever stale probes do |
| Cooldown.Breach | src/upstream/client.rs:127-135 | if a probe holder can still be refused, some run lets a request through before the deadline |
| Cooldown.TripHoldsIff | src/upstream/client.rs:90-139 | after a trip no request passes before the stamp plus the cooldown, in every run, if and only if no probe holder is being or can be refused a permit |
| ProbeSlot.SlotNotLeaked | src/upstream/client.rs:101-159 | in every run without cancellation a probe in flight has a live owner |
| ProbeSlot.LeakNeedsCancel | src/proxy/rpc.rs:234-245 | in every reachable leaked state the request last granted the probe was cancelled holding it |
| ProbeSlot.LeakIff | src/proxy/rpc.rs:90 | a step leaks the slot if and only if it drops the only live probe, on its way, while the circuit shows a probe |
| ProbeSlot.OutOfRotationIffLeaked | src/upstream/client.rs:101-139 | no run without a trip ends with a request let through and holding a permit, if and only if the slot has leaked |
| ProbeSlot.ServeAgain | src/upstream/client.rs:101-159 | from any other reachable state, the run that serves somebody again |
| ProbeSlot.OneCancelLeaks | src/proxy/rpc.rs:90 | one trip, one probe and one deadline are enough to leak it |
| ProbeSlot.ProbeBoundIsTight | src/upstream/health.rs:78-81 | for every k, some run has k trips land on a probe and k + 1 probes outstanding, all in flight if there are that many permits |
| ProbeSlot.StaleProbeDecides | src/upstream/client.rs:143-159 | after a trip on a probe, the stale probe's success closes the circuit while the fresh one is out |
| Hysteresis.HeldIff | src/routing/router.rs:108-129 | a sitting leader is kept exactly when no candidate's score, cut by the margin, exceeds its own |
| Hysteresis.CutOf | src/routing/router.rs:118 | cutting a score by the margin takes that share of it away |
| Hysteresis.ElectableIff | src/routing/router.rs:133-136 | who can be crowned: exactly those within a billionth of the top |
| Hysteresis.ChosenNearTop | src/routing/router.rs:108-136 | whoever is chosen is within the margin of the top or tied with it |
| Hysteresis.GeometricStep | src/routing/router.rs:108-141 | one round, dethroning or not, keeps the geometric bound |
| Hysteresis.BandHoldsLeader | src/routing/router.rs:98-150 | while all scores stay in a band no wider than the margin and the leader stays viable, it never changes and gets every request |
| Hysteresis.DethroningsGeometric | src/routing/router.rs:98-150 | when no sitting leader's score falls, d dethronings lift the routed score, measured from the tie floor, by 1/(1 - margin) to the power d |
| Hysteresis.GainStep | src/routing/router.rs:108-141 | one round, dethroning or not, keeps the additive bound |
| Hysteresis.DethroningsBounded | src/routing/router.rs:98-150 | each dethroning adds a fixed positive amount once the first score is above the floor, so bounded scores allow boundedly many |
| Hysteresis.FixedScoresStableIff | src/routing/router.rs:98-150 | with fixed scores the first leader keeps the seat in every run if and only if every electable candidate is within the margin of the top |
| Hysteresis.LargeScoresStable | src/routing/router.rs:118-136 | with fixed scores and a top of at least the tie tolerance over the margin, no run ever changes the leader |
| Hysteresis.TinyScoresFlap | src/routing/router.rs:133-136 | below the tie tolerance the leader can alternate for ever with no score moving |
| Scoring.TinyIsScored | src/routing/router.rs:58-90 | valid settings and one record per upstream from which selection gets exactly those scores |
| Scoring.ScoredMembers | src/routing/router.rs:32-90 | a candidate is an upstream neither excluded nor dropped, with a median or a positive score; its score is the generic one or, for `sendTransaction` with somebody measured, the best median over its own |
| Scoring.ScoredEmptyIff | src/routing/router.rs:32-90 | there is no candidate exactly when every upstream is excluded, dropped or never eligible |
| Scoring.GenericScoreBounds | src/routing/router.rs:65-89 | generic scores lie between 0 and the sum of the weights, and are positive with a positive latency weight |
| Scoring.ScoreIs | src/routing/router.rs:65-85 | the score in closed form: 100 over 100 plus the average latency, and the success average, or one half each without a sample, weighted, and a tenth of that beyond the maximum lag |
| Scoring.SuccessRaises | src/routing/router.rs:65-85 | at equal latency and lag, succeeding more often scores strictly higher |
| Scoring.LatencyLowers | src/routing/router.rs:65-85 | at equal success and lag, a lower latency scores strictly higher |
| Scoring.LagLeavesTenth | src/routing/router.rs:75-85 | a lag above the maximum leaves a tenth of the score, any other leaves all of it |
| Scoring.ScorePositiveIff | src/routing/router.rs:83-89 | exactly which upstreams score at all: without a latency weight, those without a sample or with a success average above zero, and only with a success weight |
| Scoring.SendElectableIff | src/routing/router.rs:42-54 | who can be crowned on the measured `sendTransaction` path, in milliseconds: the floored median against the best one and the tie tolerance |
| Scoring.SendHeldIff | src/routing/router.rs:42-54 | who keeps the seat there: a floored median within the margin of the best, or any once the best is zero |
| Scoring.SendChoiceNearBest | src/routing/router.rs:32-54 | whoever is chosen there satisfies one of the two |
| Scoring.ZeroMedianTiesAll | src/routing/router.rs:45-52 | with a best median of zero everybody measured can be crowned and everybody who sits keeps the seat, however slow and whatever the margin |
| Pool.UpstreamPool.constructor | src/routing/pool.rs:22-45 | a fresh pool: one closed upstream with all permits per configured name, no leader, no history |
| Pool.UpstreamPool.ApplyHysteresis | src/routing/router.rs:98-150 | the choice is one the sticky-leader rule allows, and the leader after it is the chosen name; other methods' leaders are untouched |
| Pool.UpstreamPool.CollectMeasured | src/routing/router.rs:33-41 | exactly the eligible upstreams with a median, in pool order |
| Pool.UpstreamPool.CollectGeneric | src/routing/router.rs:59-90 | exactly the eligible upstreams with a positive score, in pool order |
| Pool.UpstreamPool.SelectMeasured | src/routing/router.rs:42-52 | their medians flipped into scores; nothing if there is none |
| Pool.UpstreamPool.FlipAll | src/routing/router.rs:45-52 | the minimum fold and the flip, with the floor |
| Pool.UpstreamPool.ScoreAll | src/routing/router.rs:32-90 | the measured candidates for `sendTransaction`, falling through to the generic ones |
| Pool.UpstreamPool.SelectForMethod | src/routing/router.rs:19-93 | an upstream is returned exactly when there is a candidate, and it is one the sticky-leader rule allows |
| Selection.Select | src/routing/mod.rs:33 | the selection half of a turn: nobody exactly when there is no candidate, otherwise a choice the sticky-leader rule allows, who leads from now on |
| Selection.Try | src/routing/mod.rs:34-36 | the admission half: a permit and perhaps a probe, or a refusal; what selection sees of the pool stays as it was |
| Selection.SelectAndTry | src/routing/mod.rs:27-37 | one turn: nobody selectable, or the sticky-leader choice, who leads from now on and either admits or refuses, and nobody else changes |
| Selection.SelectAndAdmit | src/routing/mod.rs:21-39 | terminates; returns nothing exactly when every eligible upstream not excluded refuses; otherwise one permit on one upstream, the sticky-leader choice among those neither excluded nor refusing, who leads from now on; a refused upstream keeps everything but an expired Open |
| Selection.ChosenScore | src/routing/router.rs:108-136 | that choice scores within the margin of everybody left or ties with the top; after a refusal it ties |
| Selection.NoCandidates | src/routing/router.rs:59-93 | an empty selection means every upstream is filtered, dropped or never eligible |
| Selection.CandidateIs | src/routing/router.rs:59-93 | a selected name is in the pool, not filtered, not dropped, and eligible |
| Selection.CandidateScore | src/routing/router.rs:59-88 | for any method but `sendTransaction` its score is that of its own recorded averages and its own lag behind the tip |
| Selection.WeightMakesEligible | src/routing/router.rs:65-89 | with a positive latency weight every upstream is eligible |
| Selection.NobodyLeftIff | src/routing/mod.rs:14-16 | with a positive latency weight, nothing can be returned exactly when every upstream not excluded has an unexpired open circuit, a probe in flight or no permit |
| Ewma.FoldIsWeightedSum | src/routing/stats.rs:52-66 | both averages after any history are the closed-form weighted sum of all its samples |
| Ewma.FoldBounds | src/routing/stats.rs:52-66 | the latency average stays within the samples' range, the success average in [0, 1] |
| Ewma.LatencyForgets | src/routing/stats.rs:59-64 | two histories extended by the same k samples differ by exactly (1 - alpha)^k times their earlier difference |
| Ewma.SuccessForgets | src/routing/stats.rs:59-64 | the same for the success average |
| Window.PopExpired | src/routing/stats.rs:77-83 | the loop drops the longest expired prefix |
| Window.PushDropsOnlyExpired | src/routing/stats.rs:74-84 | whatever the timestamps, a record drops only samples expired at that record and keeps the rest in order |
| Window.RetainedIsSuffix | src/routing/stats.rs:68-84 | over any history the deque is a non-empty suffix of the pushes |
| Window.PruneIsRecentIff | src/routing/stats.rs:77-83 | popping the front is filtering by age exactly when the expired samples come first |
| Window.RetainedIsRecent | src/routing/stats.rs:68-84 | with timestamps in order the deque is the whole history filtered by age at the last record |
| Window.OutOfOrderKeepsStale | src/routing/stats.rs:68-84 | for every window, one millisecond out of order keeps a sample that filtering by age drops |
| Window.KeptSince | src/routing/stats.rs:74-84 | a sample no push has found expired is still in the deque, with all that came after it |
| Window.FilteredIffInOrder | src/routing/stats.rs:68-84 | the stamps of a history are in order if and only if, for every window of whole seconds and every push stamped no earlier than all before it, the deque after it is the filtered history |
| Window.FailuresCount | src/routing/stats.rs:116 | the failures counted are the raised flags |
| Median.MedianExact | src/routing/stats.rs:123-135 | the returned element is in the window, and is the only number with at most n/2 samples below and n - 1 - n/2 above |
| Stats.StatsStore.Record | src/routing/stats.rs:52-102 | all three structures stay what the history, extended by this record, makes them |
| Stats.StatsStore.RecordAverages | src/routing/stats.rs:53-66 | one entry updated in place, the first sample seeding it |
| Stats.StatsStore.RecordOutcome | src/routing/stats.rs:68-84 | one error deque pushed and pruned |
| Stats.StatsStore.RecordSend | src/routing/stats.rs:86-101 | one latency deque pushed and pruned, for successful sends only |
| Stats.StatsStore.GetIs | src/routing/stats.rs:104-108 | a read returns the fold of exactly that upstream's samples of that method |
| Stats.StatsStore.ErrorRateIs | src/routing/stats.rs:110-121 | of the records the deque retains, those that failed over all of them |
| Stats.RetainedRecordsAre | src/routing/stats.rs:74-84 | the deque holds the outcomes of the upstream's latest records, one each |
| Stats.StatsStore.SendTxP50Is | src/routing/stats.rs:123-135 | the median of the deque the history leaves |
| Stats.MatchingExact | src/routing/stats.rs:33-39 | the records of an upstream, or of an upstream and method, are all of them, as often as they occur, and no others |
| Stats.OutcomesAre | src/routing/stats.rs:76 | each record of an upstream gives one outcome, raised exactly when it failed |
| Stats.SamplesAre | src/routing/stats.rs:53-65 | each record of an upstream and method gives one sample, its latency and whether it succeeded |
| Stats.SendsAre | src/routing/stats.rs:86-93 | each successful `sendTransaction` of an upstream gives one latency, and nothing else does |
| Stats.AveragesStep | src/routing/stats.rs:52-66 | one record moves every entry, touched or not, to the fold of its own samples |
| Stats.ErrorsStep | src/routing/stats.rs:68-84 | ... and every error deque to the retained part of its own outcomes |
| Stats.SendsStep | src/routing/stats.rs:86-101 | ... and every latency deque to the retained part of its own sends |
| Stats.ErrorRateIsRecentFraction | src/routing/stats.rs:110-121 | with an upstream's own outcomes in order, whatever the order of the others', its error rate is the failed over all of its records of the last window as of its latest |
| Stats.GetBounds | src/routing/stats.rs:52-66 | whatever was recorded, an entry has samples, a nonnegative latency and a success rate |
| Stats.SendP50IsMedian | src/routing/stats.rs:123-135 | the reported median is a retained latency that splits the retained window |
| Tip.StepInv | src/upstream/health.rs:63-74 | every load, exchange and exit, stale loads included, keeps the tip a reported slot that nobody has outrun except monitors still in their loops |
| Tip.TipIsMaximum | src/upstream/health.rs:63-74 | over every interleaving the tip never falls, is 0 or a reported slot, is at least a monitor's slot when that monitor leaves its loop, and with every monitor out of its loop is the maximum ever reported |
| Tip.LoopTerminates | src/upstream/health.rs:65-73 | each failed exchange shrinks the gap, so a monitor fails at most as often as its gap was wide |
| Tip.TipCell.CompareExchange | src/upstream/health.rs:66-72 | stores exactly when the expected value is there, and returns what it found |
| Tip.TipCell.Advance | src/upstream/health.rs:63-74 | the loop ends with the tip at least at its slot, never lower than before, and at the maximum of the two if nobody interferes |
| Health.CheckBreaker | src/upstream/health.rs:76-81 | trips exactly when, of the upstream's records its deque retains, the failed over all exceed the threshold and its circuit is not open and running; with its own outcomes in order those are the records of its last window |
| Health.MonitorRound | src/upstream/health.rs:47-106 | one round: history, slot, tip, breaker and cache after it; the tip moves only with a slot, then to the old tip, the slot or another monitor's, and to the larger of the first two if no other is ahead |
| ShortVec.ReadShortvec | src/solana.rs:57-72 | the shift-and-or loop computes the base-128 sum of the first numeral |
| ShortVec.DecodeExact | src/solana.rs:57-72 | accepts exactly the numerals of at most three bytes whose sum fits 16 bits, with that value and length |
| ShortVec.DecodeSucceedsIff | src/solana.rs:57-72 | succeeds exactly when such a numeral is there |
| ShortVec.RoundTrip | src/solana.rs:57-72 | the canonical encoding of any value, followed by anything, decodes to that value and its length |
| ShortVec.CanonicalIsShortest | src/solana.rs:57-72 | every accepted spelling is at least as long as the canonical one |
| ShortVec.NonCanonicalAccepted | src/solana.rs:57-72 | padded spellings are accepted |
| ShortVec.DecodePrefix | src/solana.rs:57-72 | bytes after the numeral never matter, and all of the numeral is needed |
| ShortVec.AppendDigit | src/solana.rs:61-62 | or-ing a shifted digit into the accumulator is adding it, with no bit lost in 32 |
| Bits.OrDisjoint | src/solana.rs:62 | or-ing above the bits in use is addition |
| Bits.ByteMasks | src/solana.rs:62-63 | 0x7f keeps the value modulo 128, 0x80 tests for 128 and above |
| Transaction.ExtractBlockhash | src/solana.rs:77-100 | the cursor walk finds exactly the located 32 bytes; no index out of bounds, cursor below a fixed bound |
| Transaction.ExtractOfSerialize | src/solana.rs:74-100 | from the serialization of any well-formed legacy or versioned transaction, trailing bytes included, exactly its blockhash comes back |
| Transaction.AcceptedIsTransaction | src/solana.rs:74-100 | whatever is accepted is some well-formed transaction laid out section by section, counts possibly padded, and the answer is its blockhash |
| Transaction.Truncation | src/solana.rs:77-100 | an accepted input cut after its blockhash gives the same answer, cut earlier is rejected |
| Transaction.AppendStable | src/solana.rs:77-100 | appending bytes never changes an answer |
| BlockhashCache.BlockhashCache.constructor | src/solana.rs:24-31 | empty, with a capacity of at least one |
| BlockhashCache.BlockhashCache.InsertSlot | src/solana.rs:33-39 | the LRU map after an insert that keeps the highest slot |
| BlockhashCache.BlockhashCache.GetSlot | src/solana.rs:41-43 | the slot held, and the hit promoted |
| BlockhashCache.BlockhashCache.IsWarmedUp | src/solana.rs:45-47 | whole elapsed seconds have reached the warm-up |
| BlockhashCache.StepMap | src/solana.rs:33-43 | key by key: an insert holds the maximum, evicts only the oldest key and only when full and new; a lookup changes no slot |
| BlockhashCache.StepOrder | src/solana.rs:33-43 | a hit and an insert make the key the most recent, a miss changes nothing, and all others keep their order |
| BlockhashCache.Inclusion | src/solana.rs:24-43 | after any operations a smaller cache holds a subset of a larger one's keys, slots no larger, in the same order of recency |
| BlockhashCache.SlotSinceEntry | src/solana.rs:33-39 | each resident slot is the maximum inserted since that key last entered |
| Freshness.FlipsBackIff | src/proxy/rpc.rs:508-521 | a rejection turns into an acceptance exactly by an insert of that hash with a slot recent enough |
| Freshness.VerdictAt | src/proxy/rpc.rs:508-521 | while a hash stays resident and is not re-inserted, its slot at the start decides every verdict of the run |
| Freshness.OneWay | src/proxy/rpc.rs:508-521 | so its verdict turns from accept to reject at most once and never back |
| Freshness.ConfirmedStaysAccepted | src/proxy/rpc.rs:508-517 | a miss confirmed, the tip having been T when read, is accepted on later hits while resident and the tip is at most T + max age, whatever other tasks did while the upstreams were asked or do since |
| Freshness.ConfirmedSlot | src/proxy/rpc.rs:513-517 | the hash enters at the larger of the tip as read and the slot another task gave it meanwhile |
| Freshness.ConfirmedRejectedIff | src/proxy/rpc.rs:508-521 | if nobody inserts it again, later hits are rejected exactly once the tip exceeds that by more than the max age |
| Metrics.Metrics.RecordRoutingDecision | src/proxy/metrics.rs:35-41 | one counter up by one |
| Metrics.Metrics.RecordRequest | src/proxy/metrics.rs:43-71 | the bucket loop counts the latency in every bucket at or above it; request, sum and count follow |
| Metrics.AddIs | src/proxy/metrics.rs:37-40 | one entry grows, from zero if it was not there, and no other changes |
| Metrics.MillisIs | src/proxy/metrics.rs:66 | whole milliseconds, rounded down |
| Metrics.ObservedIs | src/proxy/metrics.rs:56-61 | the ten bounds, a latency falling into every bucket whose bound it does not exceed, and into the unbounded one |
| Accounting.StepTallied | src/proxy/metrics.rs:50-62 | every step keeps each bucket equal to the number of recorded latencies at or below its bound |
| Accounting.StepBooks | src/proxy/metrics.rs:35-71 | every step of every attempt, cancelled ones included, keeps decisions, requests, counts and sums in balance |
| Accounting.RecordSteps | src/proxy/metrics.rs:43-71 | the four recording steps with nothing in between change the counters as one call does |
| Accounting.BooksBalance | src/proxy/metrics.rs:35-71 | over every interleaving: decisions = recorded requests + in flight + cancelled; each bucket counts the latencies at or below its bound; between recordings +Inf bucket, count and requests are one number |
| Rpc.ActOn | src/upstream/client.rs:90-159 | whatever another task does to an upstream, permits out and permits in stay within the cap |
| Rpc.OutcomeIs | src/proxy/rpc.rs:315-402 | an attempt succeeds exactly on a good status without a JSON-RPC error, and hands its body on; each failing case carries its own error |
| Rpc.Proxy.Settle | src/proxy/rpc.rs:296-413 | one response: success exactly on a good status without a JSON-RPC error; its record, its request count by status, histogram, sum and count, and the harvested blockhash |
| Rpc.Proxy.Remember | src/proxy/rpc.rs:368-380 | the harvested hash enters the cache with its own slot, or the tip |
| Rpc.Proxy.Respond | src/proxy/rpc.rs:296-403 | the await and the bookkeeping leave this task's permit and probes alone; the attempt is the latest record and a harvested hash the most recent entry |
| Rpc.Proxy.Finish | src/proxy/rpc.rs:243-245 | the probe, if any, is settled once with its outcome, and only a probe changes the circuit; the permit is back |
| Rpc.Proxy.AttemptOnce | src/proxy/rpc.rs:229-245 | one attempt: one decision, one request, its probe settled with its own outcome, its permit returned |
| Rpc.Proxy.Admit | src/proxy/rpc.rs:225-228 | one permit of one upstream not excluded, the sticky-leader choice, or everybody left refuses |
| Rpc.Proxy.Turn | src/proxy/rpc.rs:224-267 | one turn of the loop: nobody left and nothing counted, or one attempt at the sticky-leader choice and its whole footprint |
| Rpc.Proxy.LoggedTurn | src/proxy/rpc.rs:224-267 | a turn as the loop keeps track of it: the sticky-leader choice among those not excluded, or everybody left refuses, and this call's probes and counters grow by exactly that attempt |
| Rpc.Proxy.ForwardCore | src/proxy/rpc.rs:200-280 | the retry loop: attempts pairwise distinct and no more than the pool or the limit; each succeeds exactly on a good status without a JSON-RPC error; all but the last failed; the answer is the last one's; early exit only when all left refuse; each probe granted settled once with its own outcome; counters up by exactly the attempts; every permit back |
| Rpc.AttemptsFitPool | src/proxy/rpc.rs:264-266 | attempts at distinct upstreams of the pool are no more than the pool has |
| Rpc.LogSnoc | src/proxy/rpc.rs:229-245 | what one more attempt adds to probe traffic, decisions and requests |
| Rpc.Proxy.AwaitAnswer | src/proxy/rpc.rs:513 | the cache and tip after any events while upstreams are asked |
| Rpc.Proxy.CheckBlockhashFreshness | src/proxy/rpc.rs:493-541 | a hit is judged by the tip read at the start and promoted; a miss is accepted exactly when confirmed, and then enters at that tip, other tasks acting between each two steps; what cannot be decoded or comes before warm-up passes untouched; rejections are counted |
| Rpc.CheckedStaysAccepted | src/proxy/rpc.rs:508-517 | after the check has confirmed a miss, whatever happened during it, later hits are accepted while resident and the tip within the max age of the one it read |

## Left out

- HTTP, TLS, routing of URLs, body streaming, logging, the command line, YAML loading, the health and readiness endpoints and Prometheus text: wiring and formatting.
- JSON parsing and the byte scan for `"error":`: a reply carries whether it has an error field and whether it is JSON.
- Base58 and base64: a blockhash is its 32 bytes, and a transaction that cannot be decoded is no transaction.
- The lru, dashmap, parking_lot and semaphore crates: a recency-ordered sequence, maps, atomic lock steps and a counter.
- Floating-point rounding, NaN and overflow: reals; the running maximum starts from the first score, not from the least float.
- Wrap-around of 64-bit counters and slots.
- The order in which upstreams are asked about an unknown blockhash: only the answer matters.
- Batches of requests: each is one request.
- Rpc.Proxy.ForwardCore: other tasks act at its await, not between its lock steps, and no deadline cuts it short; the interleavings at every lock are in `Admission`, cancellation in `Admission` and `Accounting`.
- Selection.SelectAndAdmit: the clock and the other tasks stand still during one call, as its exact answer needs.
- Stats.StatsStore.Record: one record at a time; records that overtake one another between the three locks appear only as timestamps out of order.
- Health.MonitorRound: other monitors act on the tip; what requests do between the steps of a round is in `Admission`.
- Scoring.SendChoiceNearBest: says nothing when the best median is zero, because then any measured upstream can be chosen (`Scoring.ZeroMedianTiesAll`).
- Deadline.OneProbeUnderDeadlineIff: deadline and timeout are taken to fire on time and to count from the admission, which follows the start of the request and precedes the sending; `timeout` stands for the largest one of any method.

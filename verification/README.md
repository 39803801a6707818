# A verified model of the GPU sidecar and its router

The sidecar watches accelerators, decides whether each may serve, queues requests for the local
model server, relays its answers and reports which prompt prefixes are cached. A router reads
that state and spreads requests over the sidecars. This project models the parts of both that
keep state or make promises about whole runs, and proves those promises for every input.

| files | component |
|---|---|
| `LifecycleHistory`, `Lifecycle`, `Supervisor` | device lifecycle, outage accounting |
| `Ring`, `ProbeHistory`, `Stability`, `WorkerLog` | bounded histories and the scores read off them |
| `AdmissionQueue`, `QueueProtocol` | admission queue, and every interleaving of its clients |
| `IndexHistory`, `LruHistory`, `PrefixIndex`, `ExplicitProvider` | bounded prefix index |
| `Streams`, `Relay`, `Gateway`, `EndToEnd` | stream relay in the sidecar and in the router |
| `Routing` | backend selection |
| `Emitter`, `EmitterProtocol` | trajectory events, and every interleaving of producers and loop |
| `Sequences`, `Sorting` | shared facts; the library sort |

How it is put together:

- An object that updates its fields is a class with a ghost record of everything it was told.
  `Valid()` ties each field to a function of that record which keeps no counters: trailing runs,
  latest observations, outages. The theorems are about those functions.
- The queue and the emitter run concurrently. Each critical section is a method proved equal to
  a function on a value; the protocol modules apply those functions in every order. A step that
  is not enabled changes nothing, so every sequence of events is a run.
- Time is an integer number of nanoseconds passed in by the caller. Floating point is `real`.
  `math.Exp` is a parameter known to be positive, monotone and 1 at 0. Map iteration order is an
  arbitrary choice, and sorting returns some sorted permutation.

Where the code differs from what its comments suggest, the model follows the code:

- A request whose waiter picks its timeout or cancellation after its ticket was popped keeps its
  slot for ever (`LeakHappens`, `LeakIffTimeout`). The queue can dispatch again if and only if fewer slots have
  leaked than there are (`StarvedIffAllLeaked`).
- Sequence gaps lower the index's confidence to a quarter at worst; `internal/cache/model.go:9-10`
  says to zero (`ConfidenceBehaves`).
- A store of no tokens revives the count of a removed prefix (`ZeroStoreRevives`); an empty key
  that is oldest stops eviction, and the index grows without bound (`EmptyKeyUnbounds`); on a clock that stands still eviction may
  take the newest key (`TieMayEvictNewest`); after an eviction a redelivered batch looks new
  (`ReplayLooksNew`) and a store of no tokens loses the count (`ZeroReturnLosesCount`), which are the
  only ways the bounded index can differ from a part of an unbounded one (`OnlyForgetsIff`). An event with the highest number seen so far, or a lower one, is applied.
- A stream that breaks before its first byte leaves status 200 in place for whatever follows:
  another backend's body (`MixedResponse`) or the router's own error (`FailureStatus`).
- A sidecar whose upstream fails before the first event ends its response cleanly, so the router
  does not retry, although `internal/dataplane/proxy.go:386` says it may
  (`SidecarFailuresAreNotRetried`); it retries only a connection torn before the first byte
  (`RetriedIffTorn`). A sidecar's 502 is not retried either, and a streamed one reaches the client
  as 200 (`RejectedEndings`).
- A batch that does not marshal disappears without being counted (`Conservation`), and an event
  emitted after the loop exits is accepted and never shipped (`LateEmitIsStranded`).
- A soft failure while RECOVERING does not degrade the device: it stays RECOVERING and restarts
  the streak, and the hold keeps running.

## Model

| member | source | states |
|---|---|---|
| LifecycleHistory.OfflineMeaning | internal/core/lifecycle.go:176-246 | A device is OFFLINE exactly when some non-empty suffix of its observations all failed and that suffix is at least `offlineFailures` long or contains hard evidence |
| LifecycleHistory.EvidenceMeaning | internal/core/lifecycle.go:176-181 | Which readings are healthy and which hard evidence: an explicit soft classification outranks an invisible device |
| LifecycleHistory.FailureRunIsSuffix | internal/core/lifecycle.go:176-235 | The failure counter is the length of the longest failed suffix of the observations, and hard evidence is remembered exactly while it lies in that suffix |
| LifecycleHistory.HealthyRunIsSuffix | internal/core/lifecycle.go:184-256 | The healthy streak is at least n exactly when the last n observations were all healthy |
| LifecycleHistory.ReleaseIff | internal/core/lifecycle.go:248-273 | Out of OFFLINE or RECOVERING, a poll leads to a serving state if and only if the device was RECOVERING, as many nanoseconds as the hold asks for passed since its last OFFLINE to RECOVERING poll and the last `recoveryStreak` polls were healthy |
| LifecycleHistory.ReleasedInto | internal/core/lifecycle.go:255-262 | A released device takes the state its releasing poll reads: draining, degraded, at capacity or ready |
| LifecycleHistory.NoBypass | internal/core/lifecycle.go:171-310 | Between any OFFLINE moment and any later serving moment of any run there is such a release |
| LifecycleHistory.HealthyPollsRecover | internal/core/lifecycle.go:237-273 | Under healthy polls a device that is not yet released is RECOVERING, its streak at least the number of polls, its hold counted from its entry |
| LifecycleHistory.RecoveryCompletes | internal/core/lifecycle.go:237-273 | Recovery is not a trap: enough healthy polls in a row, the last one past the hold, release the device from any history |
| LifecycleHistory.RecoveringComesFromOffline | internal/core/lifecycle.go:237-246 | RECOVERING is entered only from OFFLINE, by a healthy poll, which is when the hold starts |
| LifecycleHistory.ImmediateEdges | internal/core/lifecycle.go:226-306 | Outside recovery: a soft failure below the threshold degrades, the next healthy poll leaves DEGRADED at once, a drain request takes effect with the first healthy poll |
| LifecycleHistory.ClassRunIsSuffix | internal/core/lifecycle.go:275-305 | The run counted towards a state is at least n exactly when the last n observations were healthy and classified as that state under the drain flag of their time |
| LifecycleHistory.FlipIsConfirmed | internal/core/lifecycle.go:275-309 | Becoming READY or BUSY, other than out of DEGRADED or recovery, happens only when the last `confirmSamples` observations were all healthy and classified as the new state under the drain flag of their time |
| LifecycleHistory.AgreementFlips | internal/core/lifecycle.go:275-309 | And conversely: outside recovery that many agreeing observations bring the device into the state they agree on |
| LifecycleHistory.ServingMeaning | internal/core/lifecycle.go:146-168 | Outside recovery, as many sound polls as a change needs make the device BUSY if each read utilisation at its limit or memory at its floor, and READY if none did |
| LifecycleHistory.DegradedMeaning | internal/core/lifecycle.go:146-168 | Outside recovery a healthy poll leaves an undrained device DEGRADED if and only if it read a low score or new errors |
| LifecycleHistory.FlapBudget | internal/core/lifecycle.go:275-309 | Over any run the number of READY/BUSY flips times `confirmSamples` is at most the number of observations |
| Lifecycle.LifecycleMachine.constructor | internal/core/lifecycle.go:77-79 | A new machine agrees with the empty history |
| Lifecycle.LifecycleMachine.Step | internal/core/lifecycle.go:171-310 | Counters, pending state and latch compute the state the whole observation history determines; reports a transition exactly when that state changed |
| Lifecycle.LifecycleMachine.GoOffline | internal/core/lifecycle.go:183-213 | Going OFFLINE agrees with the history, whether by hard evidence or by reaching the threshold |
| Lifecycle.LifecycleMachine.StaySoft | internal/core/lifecycle.go:214-231 | A soft failure below the threshold agrees with the history |
| Lifecycle.LifecycleMachine.BeginRecovery | internal/core/lifecycle.go:233-246 | The first healthy poll after OFFLINE starts hold and streak as the history says |
| Lifecycle.LifecycleMachine.ContinueRecovery | internal/core/lifecycle.go:248-273 | The latch is released by the counters exactly when the history says so |
| Lifecycle.LifecycleMachine.StepServing | internal/core/lifecycle.go:275-309 | The pending pair is the trailing run of equal classifications, so hysteresis needs no history |
| Lifecycle.LifecycleMachine.SetDrainingChecked | internal/core/lifecycle.go:88-97 | Records the request without moving the state; reports a change exactly when the flag differed |
| Supervisor.PollEvidence | internal/engine/supervisor.go:241-258 | Which samples are hard, soft or healthy evidence: the adapter's classification decides, an unclassified invisible device is hard only if the access probe succeeded |
| Supervisor.PollCarries | internal/engine/supervisor.go:293-308 | The machine is told the readings that were read |
| Supervisor.DisconnectsAlternate | internal/engine/supervisor.go:309-329 | Over every history disconnects and rejoins alternate, starting with a disconnect, and the i-th outage starts at the i-th disconnect |
| Supervisor.OutagesAreOrdered | internal/engine/supervisor.go:309-329 | On a clock that never goes back outages neither run backwards nor overlap |
| Supervisor.LastDisconnect | internal/engine/supervisor.go:313-321 | The last disconnect on record is the poll that started the present spell of OFFLINE |
| Supervisor.RejoinMeasures | internal/engine/supervisor.go:322-329 | A rejoin adds the outage from the poll that found the device OFFLINE to this one, and the recovery time reported is that in whole milliseconds |
| Supervisor.Device.constructor | internal/engine/supervisor.go:175-209 | A new device agrees with the empty history |
| Supervisor.Device.Poll | internal/engine/supervisor.go:220-329 | Disconnect count, rejoin count, last recovery time and remembered disconnects are those of the state history; disconnects exceed rejoins by one exactly while OFFLINE |
| Supervisor.Device.SetDraining | internal/engine/supervisor.go:463-484 | Draining goes on record without touching outage accounting |
| Supervisor.Device.DisconnectsInWindow | internal/core/history.go:169-179 | Counts, of the last 64 disconnects ever, those inside the window |
| Ring.RingBuffer.constructor | internal/core/history.go:10-17 | A new ring has seen nothing |
| Ring.RingBuffer.Push | internal/core/history.go:18-24 | The ring keeps representing the newest elements of everything pushed, across every wrap |
| Ring.RingBuffer.Items | internal/core/history.go:25-32 | Exactly the last `capacity` elements ever pushed, oldest first |
| ProbeHistory.PercentileMonotone | internal/core/history.go:113-127 | Percentiles grow with p and never leave the range of the samples |
| ProbeHistory.PercentileAt | internal/core/history.go:113-127 | A percentile that falls on a sample is that sample, and one that falls between two is their weighted mean |
| ProbeHistory.Extremes | internal/core/history.go:113-127 | The least sample is the zeroth percentile, the greatest the hundredth |
| ProbeHistory.InterpolateBetween | internal/core/history.go:113-127 | An interpolated percentile lies between the two neighbouring samples |
| ProbeHistory.RatiosSumToOne | internal/core/history.go:102-105 | Availability and failure rate add up to one |
| ProbeHistory.AvailabilityMeaning | internal/core/history.go:92-105 | Availability is one exactly if no probe in the window failed and zero exactly if none succeeded |
| ProbeHistory.LatencyOccurs | internal/core/history.go:92-101 | The latencies sorted are those of the good probes in the window, each as often as it was measured |
| ProbeHistory.FailureRunIsSuffix | internal/core/history.go:74-82 | The failure counter is at least n exactly when the last n probes all failed |
| ProbeHistory.DeviceHistory.constructor | internal/core/history.go:58-66 | A new history has seen no probe |
| ProbeHistory.DeviceHistory.RecordProbe | internal/core/history.go:70-84 | Failure run, rates and percentiles are those of the retained probes inside the window; P50 never exceeds P95; with no good probe in the window the percentiles stay |
| ProbeHistory.DeviceHistory.RecomputeWindow | internal/core/history.go:87-111 | Same, for the recomputation alone |
| ProbeHistory.WindowRates | internal/core/history.go:102-105 | The rates are fractions of the window's probes, and stay on record when there is none |
| ProbeHistory.WindowLatencies | internal/core/history.go:106-110 | Both percentiles are read off one sorted permutation of the good latencies |
| ProbeHistory.CountWindow | internal/core/history.go:92-101 | One pass finds how many probes are in the window, how many were good and their latencies in order |
| Stability.StabilityCalc.constructor | internal/core/stability.go:45-47 | A new score agrees with the empty run |
| Stability.StabilityCalc.Update | internal/core/stability.go:154-169 | The running value is the fold over all inputs so far; with smoothing factors in [0,1] the final clamp never changes it |
| Stability.FoldInRange | internal/core/stability.go:154-169 | The smoothed score never leaves the range of the instantaneous scores seen |
| Stability.FoldMonotone | internal/core/stability.go:154-169 | Lower instantaneous scores, probe by probe, never give a higher smoothed score |
| Stability.SteadyRun | internal/core/stability.go:154-169 | A run that ends in k equal scores is k smoothing steps from where it stood |
| Stability.RecoveryIsGeometric | internal/core/stability.go:154-169 | Towards a steady higher level the gap after k probes is exactly the slow factor to the k-th power of the gap before |
| Stability.DropIsGeometric | internal/core/stability.go:154-169 | Towards a steady lower level the same with the fast factor |
| Stability.InstantaneousFalls | internal/core/stability.go:93-151 | Worse inputs, signal by signal, never score higher |
| Stability.PerfectScore | internal/core/stability.go:93-151 | With weights that add up to one, perfect inputs score one |
| Stability.FailuresAlone | internal/core/stability.go:93-151 | n consecutive probe failures alone take the decayed share of the failure weight |
| Stability.AbnormalExitsAlone | internal/core/stability.go:93-151 | The same for confirmed abnormal worker exits |
| Stability.OutOfMemoryAlone | internal/core/stability.go:93-151 | The same for confirmed out-of-memory events |
| Stability.RapidRestartsAlone | internal/core/stability.go:93-151 | The same for rapid restarts |
| Stability.CountsAlone | internal/core/stability.go:93-151 | The same for disconnects in the window and for new errors, against their own weights |
| Stability.AvailabilityAlone | internal/core/stability.go:93-151 | The share of failed probes alone takes that share of the availability weight |
| Stability.UnevennessAlone | internal/core/stability.go:93-151 | A latency tail and an uneven throughput alone take linear shares, all of them at ten times the median and at a variation of a half |
| Stability.RecoveryAlone | internal/core/stability.go:93-151 | A recovery alone takes the share that decays over thirty seconds |
| Stability.WorseRunScoresNoHigher | internal/core/stability.go:93-169 | A whole run that is never better never ends with a higher score |
| Stability.DisappearancesAreNeutral | internal/core/stability.go:93-151 | Worker disappearances of unknown cause never change the score of any run |
| WorkerLog.PruneTimes | internal/engine/supervisor.go:52-65 | Keeps exactly the events inside the window, and of those the last `maxEntries` |
| WorkerLog.PruneTail | internal/engine/supervisor.go:52-65 | Pruning a list that was pruned before equals pruning the complete history |
| WorkerLog.PruneAgain | internal/engine/supervisor.go:52-81 | Pruning at a later time what an earlier pruning kept is pruning the complete history |
| WorkerLog.TimedLog.constructor | internal/engine/supervisor.go:48-50 | A new log agrees with the empty history |
| WorkerLog.TimedLog.Record | internal/engine/supervisor.go:67-75 | After any calls the list is the window of the complete history, capped at the newest |
| WorkerLog.TimedLog.Prune | internal/engine/supervisor.go:78-81 | Same, so its length is the number of events in the window up to the cap |
| WorkerLog.RapidRestartEvents | internal/engine/supervisor.go:86-100 | The bounded lists never count more rapid restarts than the complete histories hold, and exactly as many while the cap leaves out nothing in the window |
| WorkerLog.CountRapid | internal/engine/supervisor.go:91-99 | Counts each disappearance followed by an appearance within the threshold once |
| WorkerLog.RapidEdges | internal/engine/supervisor.go:91-99 | The count is zero exactly if no disappearance in the window was followed in time and complete exactly if all were |
| WorkerLog.RapidOnTail | internal/engine/supervisor.go:86-100 | Events older than the window matter to neither side of the count |
| WorkerLog.RapidOfTail | internal/engine/supervisor.go:86-100 | Whatever was left out, the ends of the histories never give more than the histories |
| AdmissionQueue.Queue.constructor | internal/dataplane/queue.go:137-142 | A new queue is empty and open |
| AdmissionQueue.Queue.Admit | internal/dataplane/queue.go:148-180 | Admitted at the tail exactly if the queue is open, no gate refuses and there is room; which refusal it is otherwise, and that all but those of a closed queue are counted |
| AdmissionQueue.Queue.RemoveWaiting | internal/dataplane/queue.go:220-229 | The scan removes the ticket's first occurrence and nothing else |
| AdmissionQueue.Queue.PopOne | internal/dataplane/queue.go:252-255 | One promotion takes the head and one slot |
| AdmissionQueue.Queue.Drain | internal/dataplane/queue.go:245-267 | Undisturbed, a pass promotes the longest prefix that fits, in order, and stops only when nothing fits |
| AdmissionQueue.Queue.Done | internal/dataplane/queue.go:270-280 | One slot back, never below zero, one completion counted |
| AdmissionQueue.Queue.Close | internal/dataplane/queue.go:283-292 | Closes, empties the list and hands back every waiting ticket |
| QueueProtocol.RunKeepsInv | internal/dataplane/queue.go:148-292 | Every interleaving keeps the bounds, the order and every counter equal to a count of tickets |
| QueueProtocol.QueueSafety | internal/dataplane/queue.go:148-292 | In every reachable state: waiting and in-flight within their limits, no ticket's channel closed twice, dispatch in arrival order, nobody waiting overtaken |
| QueueProtocol.SlotAccounting | internal/dataplane/queue.go:194-292 | In every reachable state every arrival is dispatched, waiting, removed or dropped, every dispatch completed or in flight, and every slot in flight is relaying, being handed over or leaked |
| QueueProtocol.SlotsPartition | internal/dataplane/queue.go:194-280 | Every ticket is in one place and every held slot has exactly one explanation |
| QueueProtocol.DoneNeverClamps | internal/dataplane/queue.go:270-280 | The guard against a negative in-flight count is never needed |
| QueueProtocol.ClosedDispatchesNothing | internal/dataplane/queue.go:283-292 | After Close no continuation admits or dispatches anything |
| QueueProtocol.CloseIsFinal | internal/dataplane/queue.go:283-292 | A run that closed the queue has emptied it and admits and dispatches nothing more, whatever follows |
| QueueProtocol.AdmittedIff | internal/dataplane/queue.go:148-180 | In every run a request is admitted, behind everybody else, if and only if the queue was not closed, no gate refused and fewer than the limit waited; otherwise only the rejection count moves |
| QueueProtocol.TicketsAreUngated | internal/dataplane/queue.go:155-160 | Tickets never outnumber the requests no gate refused |
| QueueProtocol.RejectedIsTurnedAway | internal/dataplane/queue.go:150-165 | The rejection count is the number of requests before Close that got no ticket |
| QueueProtocol.LeakIsForever | internal/dataplane/queue.go:194-216 | A ticket whose waiter left after the pop stays leaked in every continuation |
| QueueProtocol.LeaksStarve | internal/dataplane/queue.go:245-267 | Once as many slots leaked as there are, no continuation dispatches again |
| QueueProtocol.HeadCanGo | internal/dataplane/queue.go:245-280 | With fewer leaks than slots some continuation dispatches exactly the head of the queue next |
| QueueProtocol.StarvedIffAllLeaked | internal/dataplane/queue.go:194-280 | In every reachable state with somebody waiting, the queue can dispatch again if and only if fewer slots leaked than there are |
| QueueProtocol.SlotsReturnIffNoLeak | internal/dataplane/queue.go:194-280 | When every waiter has decided and every relay is done, all slots are back if and only if no waiter left after its pop |
| QueueProtocol.LeakHappens | internal/dataplane/queue.go:202-215 | For all positive limits, and for timeouts as for cancellations, a run that leaks every slot of an idle queue, after which no continuation dispatches |
| QueueProtocol.NoLeakWithoutGivingUp | internal/dataplane/queue.go:194-292 | Without timeouts and client cancellations no run leaks a slot, not even one that closes the queue |
| QueueProtocol.LeakIffTimeout | internal/dataplane/queue.go:194-216 | A queue whose clients never cancel can leak a slot if and only if it has a timeout |
| IndexHistory.NoGapNoLoss | internal/cache/index.go:91-115 | With no gap counted since the reset, every sequence number from the first to the highest arrived |
| IndexHistory.GapIsReal | internal/cache/index.go:91-115 | A counted gap is never a false alarm: nothing above the tracked number had arrived |
| IndexHistory.GapsAreSkips | internal/cache/index.go:91-115 | The gap count is the number of events whose number was beyond the next of everything seen since the reset |
| IndexHistory.LastUpdateMeaning | internal/cache/index.go:120-198 | The update time is that of an event since the reset, and of the newest on a clock that never goes back |
| IndexHistory.EntryHasStore | internal/cache/index.go:120-198 | Every entry's count was stored since the last clear or reset, and a present entry's time is that of a store no remove followed |
| IndexHistory.CountWasStored | internal/cache/index.go:136-140 | A live store that claimed tokens leaves a live store of exactly the count on record, no earlier on a clock that never goes back |
| IndexHistory.NoInventedHit | internal/cache/index.go:272-298 | Behind every positive answer is a store of that key that was not a redelivery, inside the TTL, followed by no remove, clear or reset; some such store is for exactly that many tokens if and only if some such store claimed tokens at all, and on a clock that never goes back the same holds of those inside the TTL |
| IndexHistory.HitIff | internal/cache/index.go:231-298 | The converse: where stores claim tokens and the clock never goes back, the index reports a match if and only if it is current, still holds the key and has a live store of it inside the TTL; a key not evicted is still held |
| IndexHistory.ZeroStoreRevives | internal/cache/index.go:136-140 | The other side: a log with no live store that claimed tokens answers with a removed count |
| IndexHistory.BoundedAgrees | internal/cache/index.go:201-298 | A key that eviction spared since the last clear is answered as an unbounded index would |
| IndexHistory.UnevictedAgrees | internal/cache/index.go:201-298 | Until the first eviction every answer equals the unbounded one |
| IndexHistory.OnlyForgetsIff | internal/cache/index.go:120-226 | At every moment every entry held is the unbounded index's entry, if and only if every key stored again after its eviction returns alike: a redelivery with its old time and count, any other store with a count of its own |
| IndexHistory.EvictionOnlyForgets | internal/cache/index.go:120-226 | Under that condition the bounded index is a part of the unbounded one, entry for entry |
| IndexHistory.PlainStoresReturnAlike | internal/cache/index.go:120-226 | A publisher that never redelivers and always claims tokens meets it |
| IndexHistory.ReplayLooksNew | internal/cache/index.go:129-135 | In a reachable one-entry index, a batch redelivered after its key was evicted is taken as new: the entry is dated by the redelivery, where an unbounded index ignores it |
| IndexHistory.ZeroReturnLosesCount | internal/cache/index.go:136-151 | In a reachable one-entry index, a key that returns after its eviction with no tokens has lost its count, with no redelivery involved |
| IndexHistory.StoreFits | internal/cache/index.go:201-226 | Whatever the size of the index before it, a store of a new key never evicts below the cap, ends within it without the empty key, and with it exactly when the entries older than the empty key are enough to make room (ties with the empty key going either way) |
| IndexHistory.StaysWithinCap | internal/cache/index.go:120-226 | Over every sequence of stores, removes, clears and resets the entry count is within the cap whenever the empty key was not stored since the last clear or reset |
| IndexHistory.EmptyKeyUnbounds | internal/cache/index.go:201-226 | And otherwise nothing bounds it: under every cap there are runs to every size, in which no store can evict |
| LruHistory.TimesDiffer | internal/cache/index.go:120-153 | On an advancing clock no two keys were last observed at the same time |
| LruHistory.HeldIsLatest | internal/cache/index.go:120-153 | Whatever is held is that key's latest observation since the reset |
| LruHistory.HoldsANewestChoice | internal/cache/index.go:120-226 | Explicit mode is an LRU cache on any clock that never goes back: the index holds as many observed keys as the cap allows and leaves out none observed later than one it holds |
| LruHistory.HoldsTheNewest | internal/cache/index.go:120-226 | On an advancing clock that leaves one choice: exactly the `MaxEntries` most recently observed distinct keys since the reset, each with its latest count |
| LruHistory.VictimIsOldest | internal/cache/index.go:201-226 | No entry is evicted while one observed earlier is held; on an advancing clock the victim is the least recently observed |
| LruHistory.NewestGoesIffTied | internal/cache/index.go:201-226 | On a clock that never goes back the key just stored may be evicted if and only if every entry held has its time |
| LruHistory.TieMayEvictNewest | internal/cache/index.go:208-218 | Without an advancing clock the key just observed may be evicted |
| PrefixIndex.ConfidenceBehaves | internal/cache/index.go:243-268 | Confidence is in [0,1], never rises while nothing arrives or with another gap, and gaps leave at least a quarter |
| PrefixIndex.ConfidenceEdges | internal/cache/index.go:243-268 | Confidence is one right after an event, a quarter less for each of up to three gaps, and positive exactly until the stale window has passed |
| PrefixIndex.Index.constructor | internal/cache/index.go:59-68 | A new index agrees with the empty history; a non-positive cap means 100000 |
| PrefixIndex.Index.CheckSeq | internal/cache/index.go:91-115 | Highest number and gap count stay those of the event history |
| PrefixIndex.Index.ApplyStore | internal/cache/index.go:120-153 | The index stays the map its event history describes, evictions included, and evicts only for a new key |
| PrefixIndex.Index.Touch | internal/cache/index.go:129-147 | A store of a key already held moves nobody in or out; a duplicate changes nothing |
| PrefixIndex.Index.StoreNew | internal/cache/index.go:148-152 | A new key enters and evictions are carried to the end, leaving freshness and numbering alone |
| PrefixIndex.Index.ApplyRemove | internal/cache/index.go:157-172 | Same, for a remove: a removed key stays as an absent entry |
| PrefixIndex.Index.ApplyClear | internal/cache/index.go:175-184 | Same, for a clear |
| PrefixIndex.Index.Reset | internal/cache/index.go:188-198 | Same, for a reset: sequence tracking starts over, gaps stay counted |
| PrefixIndex.Index.Evict | internal/cache/index.go:201-226 | Removes oldest entries one by one until within the cap or the empty key is oldest; each removal is counted |
| PrefixIndex.Index.FindOldest | internal/cache/index.go:209-218 | In any iteration order, an entry none is older than |
| PrefixIndex.Index.LookupKey | internal/cache/index.go:286-298 | Answer and confidence are those of the event history |
| PrefixIndex.Index.Directory | internal/cache/index.go:365-402 | The published directory holds only live keys, as many as the cap allows, none older than one left out, each with the answer LookupKey gives; empty when stale |
| PrefixIndex.PrefixIsDirectory | internal/cache/index.go:386-401 | Any newest-first listing cut at the cap is such a directory, whichever way ties fall |
| PrefixIndex.PermutationLists | internal/cache/index.go:388-394 | Sorting the rows keeps each live key listed once |
| ExplicitProvider.Provider.constructor | internal/cache/explicit_provider.go:39-44 | A new provider has observed nothing; a cap of zero brings the default configuration with its lifetimes, a negative one the default cap alone |
| ExplicitProvider.Provider.Observe | internal/cache/explicit_provider.go:80-87 | A usable observation is stored under the next number; an empty key or no tokens changes nothing |
| ExplicitProvider.Provider.OnRuntimeRestart | internal/cache/explicit_provider.go:61-66 | Forgets everything and keeps numbering |
| ExplicitProvider.Provider.Lookup | internal/cache/explicit_provider.go:90-114 | Which of the four answers is given and when; a warm one is the lesser of the request's claim and an observation since the restart inside the TTL |
| ExplicitProvider.Provider.WarmIff | internal/cache/explicit_provider.go:90-114 | On a clock that never goes back a lookup is warm if and only if the stale window has not passed, the key is still held and it was observed since the restart inside the TTL |
| ExplicitProvider.Provider.IsLru | internal/cache/explicit_provider.go:61-87 | After any calls on a clock that never goes back the provider holds a choice of most recently observed keys, within the cap, each with its latest count; on an advancing clock the only one |
| Relay.StreamOutcomeMeaning | internal/dataplane/proxy.go:343-413 | What is delivered is a prefix of what was read; COMPLETED means end of stream with every line forwarded; a partial stream means a line arrived, an upstream failure that none did |
| Relay.StreamEnds | internal/dataplane/proxy.go:343-413 | By the first ending turn: end of stream completes, an uncancelled break is partial if a line was read and an upstream failure otherwise, a failed write, a cancelled break or a requester gone cancels; and exactly the lines up to there whose writes succeeded are delivered |
| Relay.StreamGoesOn | internal/dataplane/proxy.go:343-413 | A stream with no ending turn has no outcome yet and every line is delivered |
| Relay.RelayTurn | internal/dataplane/proxy.go:343-408 | One turn forwards the line unless its write fails and ends the relay exactly when it must, in the state the bytes so far decide |
| Relay.StreamLoop | internal/dataplane/proxy.go:343-413 | The loop ends in that outcome having written exactly those bytes |
| Relay.RejectionStatus | internal/dataplane/proxy.go:467-478 | A refusal for lack of room is a 429, every other a 503 |
| Relay.Serve | internal/dataplane/proxy.go:158-414 | For every wait and upstream behaviour the ticket's states form a legal path with one terminal state at its end, Done is called exactly once per ended dispatched request and never otherwise, and status line, final state and bytes follow the upstream |
| Gateway.RelayLoop | internal/router/gateway.go:206-255 | Asks for a retry exactly when the stream broke before its first byte with the client present; otherwise forwards what was read, in order |
| Gateway.Forward | internal/router/gateway.go:148-256 | A retryable attempt wrote no body byte; retryable is exactly rejected, unflushable or broken before the first byte |
| Gateway.PickAlternative | internal/router/gateway.go:258-265 | The first eligible untried backend of the snapshot, or the empty id when all were tried |
| Gateway.TargetMeaning | internal/router/gateway.go:54-61 | An id stands for a backend of the snapshot that has it, if and only if there is one |
| Gateway.BackendByID | internal/router/gateway.go:54-61 | Finds the backend the id stands for |
| Gateway.Choose | internal/router/gateway.go:110-116 | The policy's choice, unless it was tried and some eligible backend was not: then the first of those, an empty id excepted |
| Gateway.Contact | internal/router/gateway.go:119-139 | An id the snapshot does not have is passed over; otherwise the attempt is what its backend answers |
| Gateway.TryNext | internal/router/gateway.go:110-139 | One attempt extends the record of picks by a failure the client saw nothing of or by the answer being delivered |
| Gateway.AfterChoice | internal/router/gateway.go:110-139 | Once the policy has chosen, the response is settled and explained, or the record is one unseen failure longer and nothing is written |
| Gateway.ChatCompletions | internal/router/gateway.go:97-143 | For all snapshots, policies and behaviours of backends: at most `maxRetries` + 1 attempts, all but the last unseen by the client, the body from one backend or the router's error, the status the first one committed |
| Gateway.PickIsEligible | internal/router/gateway.go:110-123 | Under a policy that keeps its contract a pick names an eligible backend, is one where ids are unique, and repeats an earlier one only if the snapshot offers nothing untried with a name |
| Gateway.OnlyEligibleTried | internal/router/gateway.go:97-143 | Over a whole request under such policies: every attempt is on an eligible backend's id, and "no eligible backend" is the truth |
| Gateway.RepeatedIdMisroutes | internal/router/gateway.go:54-61 | Where an id is repeated the request goes to the first backend that has it, eligible or not |
| Gateway.NoRepeats | internal/router/gateway.go:110-117 | No backend is tried twice while snapshots offer untried ones with names |
| Gateway.NoHeadIff | internal/router/gateway.go:148-212 | There is no status line exactly as long as no attempt got past rejection |
| Gateway.HeadIsFirstCommitted | internal/router/gateway.go:148-212 | The status line is that of the first attempt that got past rejection, whichever supplied the body |
| Gateway.HeadAndBody | internal/router/gateway.go:148-256 | A delivered response has the head of the first attempt past rejection and the body of the last; the first, if earlier, is a stream that broke before its first byte |
| Gateway.HeadMatchesBody | internal/router/gateway.go:227-235 | Head and body of a delivered response name different backends if and only if an earlier stream broke before its first byte, the first of those on another backend |
| Gateway.HeadMatchesUnlessBroken | internal/router/gateway.go:227-235 | Where no backend was tried twice: exactly after any such break |
| Gateway.PlainAnswer | internal/router/gateway.go:179-193 | A request that is not streamed is answered with the last backend's status and body, and nothing else |
| Gateway.StreamedAnswer | internal/router/gateway.go:195-256 | A streamed one with status 200 and the lines of the last backend's stream up to its end |
| Gateway.FailureStatus | internal/router/gateway.go:200-243 | When all attempts fail, the client sees status 200 if and only if some stream broke before its first byte |
| Gateway.MixedResponse | internal/router/gateway.go:200-243 | A request with two eligible backends and a policy that keeps its contract, answered with one backend's head and the other's body |
| EndToEnd.ClientGetsWhatSidecarSent | internal/router/gateway.go:206-255 | However the router's reader cuts the bytes and whatever the client does, it gets a beginning of what the sidecar delivered, and all of it if it stays and the connection is whole |
| EndToEnd.DeliveredWasRead | internal/router/gateway.go:206-255 | Nothing is delivered that was not read |
| EndToEnd.RetriedIffTorn | internal/router/gateway.go:227-235 | Of the sidecar's ended streams the router retries exactly those whose connection was torn before a byte arrived, with the client still there |
| EndToEnd.SidecarFailuresAreNotRetried | internal/dataplane/proxy.go:376-400 | A stream the sidecar accounts as failed, before or after its first event, is never retried, whatever the client does; one that stays takes it for complete |
| EndToEnd.TornBeforeFirstByte | internal/dataplane/proxy.go:354-361 | A torn connection that is retried |
| EndToEnd.RefusalsAreRetried | internal/router/gateway.go:174-177 | Every refused admission is retried and leaves no status line |
| EndToEnd.RejectedEndings | internal/router/gateway.go:174-204 | Of the sidecar's endings the router takes as a rejection exactly a queue timeout and the model server's own 429 or 503; any other status of a streamed answer becomes 200 |
| EndToEnd.PlainRoundTrip | internal/dataplane/proxy.go:271-300 | Through sidecar and router a plain request gets the model server's status and body, or is retried if that status is 429 or 503 |
| EndToEnd.StreamedErrorIsDelivered | internal/router/gateway.go:195-256 | A streamed error of the sidecar reaches the client whole, under 200, and is not retried |
| Routing.Eligible | internal/router/policy.go:49-64 | Exactly the eligible backends, in snapshot order |
| Routing.ContractMeaning | internal/router/policy.go:49-64 | A policy that keeps its contract picks only backends that are reachable, healthy, neither offline nor draining and not full, and picks one exactly if there is one |
| Routing.SelectCacheAware | internal/router/policy_cache_aware.go:187-212 | An eligible backend with the least estimated finish time, least id among equals; none exactly when none is eligible |
| Routing.SelectAffinity | internal/router/policy_cache_aware.go:275-297 | The same for most matched tokens |
| Routing.AffinityIsLongest | internal/router/policy_cache_aware.go:275-297 | No eligible backend has a longer match than the affinity choice |
| Routing.SelectFirstLeast | internal/router/policy.go:82-140 | The scan of the load-based policies: the first eligible backend of least score in snapshot order, none exactly when none is eligible |
| Routing.SelectLeastQueued | internal/router/policy.go:82-95 | That scan by load: nobody eligible has fewer requests queued and in flight |
| Routing.SelectLeastWaiting | internal/router/policy.go:100-113 | That scan by requests waiting in the runtime: nobody eligible has fewer |
| Routing.SelectLeastPressure | internal/router/policy.go:118-140 | That scan by pressure over stability |
| Routing.PressureOfStable | internal/router/policy.go:123-130 | At full stability each request counts once and a full cache as four |
| Routing.PressureBehaves | internal/router/policy.go:123-130 | More load never lowers pressure |
| Routing.StablerNoWorse | internal/router/policy.go:123-130 | More stability never raises it |
| Routing.RoundRobin.constructor | internal/router/policy.go:67-67 | Starts at the first |
| Routing.RoundRobin.Select | internal/router/policy.go:69-77 | The eligible backend whose rank is the turn modulo their number; only a successful call takes a turn, and each goes on record |
| Routing.RoundRobin.FullRound | internal/router/policy.go:69-77 | Any m consecutive successful calls with m eligible backends each pick each rank exactly once |
| Routing.BestIsOrderFree | internal/router/policy_cache_aware.go:187-212 | The choice depends on nothing but the eligible set and its scores |
| Routing.PermutedSnapshot | internal/router/policy_cache_aware.go:187-212 | Permuting the snapshot does not change the choice |
| Routing.FinishBounds | internal/router/policy_cache_aware.go:141-184 | A match saves at most the whole prompt's prefill and never costs |
| Routing.LoadCosts | internal/router/policy_cache_aware.go:141-184 | Every request queued, in flight, waiting or running adds what the configuration says to the estimate |
| Routing.MoreLoadNoBetter | internal/router/policy_cache_aware.go:141-184 | More of them never lowers it |
| Routing.MatchSaves | internal/router/policy_cache_aware.go:102-184 | A usable match within claim and prompt saves exactly the prefill of its tokens |
| Routing.LongerMatchNoWorse | internal/router/policy_cache_aware.go:102-184 | A longer match never raises the estimate |
| Routing.LessTrustNoBetter | internal/router/policy_cache_aware.go:102-184 | Less confidence or less KV headroom never lowers it |
| Routing.IdleEstimate | internal/router/policy_cache_aware.go:130-184 | An idle backend is estimated at the prompt's prefill plus the expected output at its measured or the default rate |
| Routing.LocalityIsBounded | internal/router/policy_cache_aware.go:141-212 | Locality never picks a backend that is slower cold than some eligible one by more than the whole prompt's prefill |
| Routing.UnusableIsCold | internal/router/policy_cache_aware.go:102-184 | Unsupported, low-confidence or ineligible locality leaves the cold estimate |
| Routing.LocatorIrrelevant | internal/router/policy_cache_aware.go:102-212 | Where no eligible backend has usable locality the choice is that of the estimate without a cache |
| Routing.BeforeIsPreorder | internal/router/policy_cache_aware.go:198-203 | Score then id is a total order on candidates, so sorting is well defined |
| Routing.LexMeaning | internal/router/policy_cache_aware.go:198-203 | Ids are ordered letter by letter |
| Emitter.Normalise | internal/trajectory/emitter.go:76-78 | Positive settings are kept, others replaced by 128 and 10000 |
| Emitter.PostBatch | internal/trajectory/emitter.go:178-202 | At most two posts, sent exactly when one succeeds, and a batch that does not marshal is neither sent nor failed |
| Emitter.EventEmitter.constructor | internal/trajectory/emitter.go:76-90 | A new emitter is empty |
| Emitter.EventEmitter.EmitFirstTry | internal/trajectory/emitter.go:94-117 | Accepted exactly when there is room; only terminal events get a second try |
| Emitter.EventEmitter.EmitSecondTry | internal/trajectory/emitter.go:108-115 | The bounded second try accepts or drops, once |
| Emitter.EventEmitter.Receive | internal/trajectory/emitter.go:166-170 | Moves one event from channel to batch |
| Emitter.EventEmitter.Flush | internal/trajectory/emitter.go:143-149 | Empties the batch and counts it once |
| Emitter.EventEmitter.DrainOnStop | internal/trajectory/emitter.go:150-165 | Undisturbed, ships everything accepted, in order, in full batches but for the last |
| EmitterProtocol.RunKeepsInv | internal/trajectory/emitter.go:94-202 | Every interleaving keeps order, counts and bounds |
| EmitterProtocol.LossIsAShipment | internal/trajectory/emitter.go:178-182 | Events are lost in a run if and only if some batch failed to marshal while being shipped |
| EmitterProtocol.CountedByOutcome | internal/trajectory/emitter.go:178-202 | Sent, failed and lost are the events of the batches whose shipping ended that way |
| EmitterProtocol.DroppedOnlyWhenFull | internal/trajectory/emitter.go:94-117 | An event is dropped exactly if it is not terminal and found the channel full, or is on its second try and the timer fired |
| EmitterProtocol.RetriedAreTerminal | internal/trajectory/emitter.go:94-117 | Only terminal events get a second try |
| EmitterProtocol.Conservation | internal/trajectory/emitter.go:94-202 | In every reachable state each completed Emit is dropped, queued, batched, sent or failed, exactly unless a batch failed to marshal while being shipped; nothing is reordered; channel and batch stay bounded |
| EmitterProtocol.NothingLost | internal/trajectory/emitter.go:178-182 | A run whose batches all marshal loses nothing |
| EmitterProtocol.ExitShipsEverything | internal/trajectory/emitter.go:150-165 | When the loop has exited, exactly the events accepted before its last look at the channel were shipped, in order |
| EmitterProtocol.ExitIsFinal | internal/trajectory/emitter.go:127-165 | After the exit nothing is shipped or counted any more |
| EmitterProtocol.LateEmitIsStranded | internal/trajectory/emitter.go:94-165 | An event accepted after the exit stays in the channel in every continuation |

## Left out

- Lifecycle.LifecycleMachine.Step: does not model reason codes, the hard-offline flag or the offline and recovery wall times of Info, which nothing in the machine reads.
- Supervisor.Device.Poll: the stability score and new error count are parameters; workers, history points, event texts and readiness are not modelled.
- Supervisor.Device.DisconnectsInWindow: forgets disconnects beyond the last 64, as the code does.
- AdmissionQueue.Queue.Admit: request, route and device ids are left out; a ticket is its arrival number.
- QueueProtocol.RunKeepsInv: the dispatcher's timer and wake-up channel are not modelled, so nothing is said about when it runs; rate windows, wait percentiles and snapshots of the queue are not either.
- PrefixIndex.Index.ApplyStore: parent key and block size of an entry, and the duplicate, out-of-order, received, reset and stale counters, are not modelled.
- PrefixIndex.Index.LookupKey: the snapshot age in milliseconds is not modelled.
- ExplicitProvider.Provider.Observe: number and store are taken as one step; two concurrent calls could interleave them.
- LruHistory.HoldsTheNewest: needs a strictly advancing clock; HoldsANewestChoice is the law for every clock that never goes back, and TieMayEvictNewest shows why it allows a choice.
- WorkerLog.TimedLog.Record: needs a clock that does not go back, as the monotonic clock does not.
- Relay.Serve: starts at an admitted ticket; headers, the text of errors written by the sidecar itself, work accounting and size limits on bodies are left out.
- Gateway.ChatCompletions: headers other than the status line and the last error's text are left out.
- Stability.StabilityCalc.Update: the published component breakdown is left out; rounding, infinities and NaN of floating point are not modelled anywhere.
- Emitter.EventEmitter.EmitFirstTry: the disabled emitter and the defaulted source and time of an event are left out.
- Emitter.PostBatch: the local fallback file is left out.
- Native vLLM cache events: the parser and its provider, whose matching the repository itself does not trust.
- Registry polling, the API servers, configuration and hashing of keys: input and output around the modelled core.
- Vendor adapters and process detection: parsing of tool output.
- Routing.RoundRobin.Select: the turn counter does not wrap at 64 bits.
- The score breakdown of the cache-aware policy: it would only add easy members.
- Work accounting, readiness and capacity hints: single formulas.

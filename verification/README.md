# Verification of the Solana delivery client

This project models the in-process delivery client in Dafny and proves what it guarantees. The
client is one mutable object: a topology snapshot copied out of caller memory, a list of accepted
requests, a 64-slot event ring and the next request id. It is driven by install, refresh, submit,
poll and destroy, and it depends on two callbacks, an allocator and a monotonic clock.

`dafny verify dfyconfig.toml` checks everything.

## How it is built

There are two layers, connected by refinement.

- The **heap layer** has the shape of the C code. Topology arrays are byte arrays with counts and
  strides, and every element is read at its computed byte offset. The ring is an array with a head and
  a count. Requests are linked heap nodes with a transaction array and a target array. A ghost set of
  live blocks makes a leak and a double free expressible, and only a live block may be freed. Freeing
  puts the block in the frame and promises nothing about its fields, so a proof cannot rest on what a
  freed block held. Loops, size probes, cleanup paths and "cannot happen" branches are the C code's;
  each branch of the last kind is proved dead.
- The **abstract layer** (`Delivery`) says what one call means as a function of the abstract state, the
  arguments and the answers of the environment. `Runs` closes it over arbitrary sequences of calls,
  and `Guarantees` states the theorems.

Every client method is proved to compute the abstract operation, on every path, and to leave all
blocks that are not the client's alone. `Execution` then plays arbitrary operation sequences on the
heap client, so the theorems about abstract runs are theorems about the heap client.

The environment is an oracle: a function from call number to "granted or refused" for calloc, and to
a status and a time for the clock. Theorems quantify over all oracles, hence over every pattern of
allocation failures and over clocks that fail or go backwards.

| file | content |
|---|---|
| `Machine`, `Bytes`, `Records` | integer widths, statuses, the oracle; little-endian bytes; the ABI records |
| `Host` | allocator and clock |
| `Layout`, `Topology`, `Format` | strided arrays, copying and normalising; validation and snapshots; the accepted format byte by byte |
| `OwnedTopology`, `Revalidation` | the client's copy: build, release, swap; that it preserves meaning |
| `Resolution`, `Routing` | the leader/endpoint join; first-occurrence planning |
| `Events` | the ring and its strided drain |
| `Delivery` | the abstract operations |
| `Requests`, `RequestList`, `Client`, `Discovery` | the heap client and the refresh bracket |
| `Runs`, `Guarantees`, `Execution` | whole runs, the theorems, and the heap client's runs |
| `Witness` | concrete runs from explicit bytes: what the theorems speak of does occur |

## Findings

- Freshness is decided by the first clock sample only. The sample that stamps the accepted event is
  compared with the topology's receipt time and not with the maximum age, so an event may be stamped
  later than the caller's maximum age: `Witness.LateStampHappens` is a run in which one is, and
  `Guarantees.LateStampPossibleExactlyWhen` says exactly when it is possible.
- On a 64-bit `size_t` two overflow tests can never fire, because the counts and strides they guard
  have 32 bits: the candidate count (`Resolution.CountNeverReachesLimit`) and the array layout
  (`Layout.OverflowTestNeverRejects`). The code keeps both, as docs/architecture/0009 asks for the first.
- Every internal cross-check of a submission (the probe's count, the second counts, the range checks of
  materialisation, the final push) is unreachable in its failing direction, so INTERNAL_ERROR can only
  come from the clock: `Guarantees.InternalErrorComesFromClock`.
- A clock callback may return any status, and a submission passes it on unchanged, so a status alone does
  not always say why: `Witness.StaleFromTheClock` is a STALE refusal of a fresh topology, and
  `Guarantees.RefusalsMeanWhatTheySay` gives each status its exact condition, the clock's own answers
  included.

## Model

| member | source | states |
|---|---|---|
| `Guarantees.ExactlyOnceFifo` | src/solana_delivery_submission.c:352-432 | After any sequence of installs, refreshes, submissions and polls against any allocator and clock: drained events followed by queued events are exactly one accepted event per accepted request, in acceptance order, every field of the event fixed but its time, ids 1 to n without gap or reuse; the next id is n+1, or none for good after 2^64-1; at most 64 events are undrained |
| `Guarantees.CallerSeesEachRequestOnce` | include/solana/delivery.h:248-270 | From what the calls of a run returned alone: the ids are 1, 2, 3 and so on, one per accepted request, and the events handed out are the accepted events of those ids in order, at most 64 behind |
| `Guarantees.EverythingCanBeDrained` | src/solana_delivery_events.c:99-130 | In any reachable state a poll with a usable buffer of at least 64 slots, at any stride from 64 on that is a multiple of 8, leaves nothing queued and hands out what was, one event per accepted request in all |
| `Guarantees.StatusOfPoll` | src/solana_delivery_events.c:53-137 | Exactly which arguments are accepted, the two numbers spelled out; an accepted poll hands out and removes the oldest events, as many as fit, and any other changes nothing |
| `Guarantees.RequestsMeanTheirSnapshot` | src/solana_delivery_submission.c:186-373 | Each accepted request of any run holds the submitted bytes, the generation and slot of the snapshot current at acceptance, and the materialised first `limit` distinct targets of the join at that slot; at least one, and exactly min(distinct targets, limit) |
| `Guarantees.MaterializedFromSnapshot` | src/solana_delivery_submission.c:97-141 | Every target of every accepted request is the planned route at its place: its three indices, the identity and endpoint the snapshot has at them, a leader whose slot range contains the current slot and has that validator, and an association of exactly that validator and endpoint |
| `Guarantees.RouteIsContact` | src/solana_delivery_resolution.c:115-147 | Every planned route leads from a leader of the slot over an association of its validator to that association's endpoint |
| `Guarantees.LaterRunsOnlyAppend` | docs/architecture/0012-callable-submission-contract.md:145-162 | Whatever operations lead from one history to a later one, they only append to requests, drained events and installed snapshots: nothing accepted is ever retargeted or revised |
| `Guarantees.StepOnlyAppends` | src/solana_delivery_submission.c:422-432 | The same for a single operation of any kind and outcome |
| `Guarantees.SameGenerationCoherence` | src/solana_delivery_submission.c:359-373 | For any two accepted requests of a run: generations do not decrease in acceptance order, and equal generations mean the same routing slot and one target list a prefix of the other |
| `Guarantees.PrefixOfLarger` | src/solana_delivery_route.c:82-117 | The materialised targets for a limit are a prefix of those for any larger limit |
| `Guarantees.GenerationsIncrease` | src/solana_delivery.c:783-787 | Along any run the installed generations strictly increase, and the current snapshot is the last one installed |
| `Guarantees.AdmittedFresh` | src/solana_delivery_admission.c:27-52 | Every accepted request of any run was admitted by a sample not before its snapshot's receipt and at most max age after it, and its event's time is not before that receipt |
| `Guarantees.StampIsNotAgeChecked` | src/solana_delivery_submission.c:381-395 | The second sample is compared with the receipt time only: replace it by any later time and the submission is still accepted, its event carrying that time |
| `Guarantees.LateStampPossibleExactlyWhen` | src/solana_delivery_submission.c:381-395 | An accepted submission could have been stamped past its maximum age by a later second sample alone if and only if receipt time plus maximum age is below 2^64-1 |
| `Witness.LateStampHappens` | src/solana_delivery_submission.c:381-411 | A reachable history of two honest calls from explicit bytes: a one-record-per-table topology installed at time 0, then a submission with maximum age 10 accepted with an event stamped 1000 |
| `Witness.StaleFromTheClock` | src/solana_delivery_admission.c:27-41 | A reachable history in which a submission is refused with STALE because the clock said so, while the topology is not too old |
| `Witness.SmallIsWellFormed` | src/solana_delivery.c:259-406 | The explicit bytes of a validator, an endpoint, an association and a leader form a topology that validation accepts |
| `Guarantees.SubmitAcceptsExactlyWhen` | src/solana_delivery_submission.c:143-460 | A submission is accepted if and only if: arguments valid, topology installed, first sample good and fresh, some leader of the slot has an endpoint, byte counts fit, five consecutive callocs granted, an id and an event slot left, second sample good |
| `Guarantees.RefusalsMeanWhatTheySay` | src/solana_delivery_submission.c:143-460 | For every state, every arguments and every clock and allocator, each refusal exactly under its own condition: a status that a clock sample taken by the call reported is passed on; otherwise STALE iff the topology is older than allowed, UNAVAILABLE iff there is no topology or no contact for its slot, EXHAUSTED iff a byte count, one of five callocs, the ids or the event slots fail an otherwise usable submission, INVALID and UNSUPPORTED iff the arguments are |
| `Guarantees.RefusedForFree` | src/solana_delivery_submission.c:150-186 | Spells out the usable arguments; unusable ones and a missing topology are exactly the refusals that take no clock sample and no allocation |
| `Guarantees.SubmitAllOrNothing` | docs/architecture/0012-callable-submission-contract.md:184-192 | For every failure point: OK exactly when the id is nonzero; otherwise requests, next id, queue and topology are untouched; on OK exactly one request and one event are appended, both with the returned id |
| `Guarantees.InternalErrorComesFromClock` | src/solana_delivery_submission.c:189-395 | A submission reports INTERNAL_ERROR if and only if a clock sample it takes reported it or preceded the receipt; the second sample is taken exactly when everything before it succeeded, so the internal cross-checks never fire |
| `Guarantees.StatusOfSubmit` | src/solana_delivery_submission.c:143-460 | The status of every submission against every environment is that of the first gate that fails: arguments, topology, admission sample, contact, resources, second sample |
| `Guarantees.SteadyClockOrdersEvents` | src/solana_delivery_submission.c:381-411 | If the clock never fails and never goes back, event times are non-decreasing in delivery order over any run |
| `Guarantees.SteadyClockNeverInternalError` | src/solana_delivery_submission.c:381-395 | With such a clock no submission in any reachable state reports INTERNAL_ERROR |
| `Guarantees.InstallAllOrNothing` | include/solana/delivery.h:201-219 | OK if and only if the topology is well formed, strictly newer, one calloc per non-empty table is granted and the clock answers; then it means its source; otherwise snapshot, receipt time and all else are left alone |
| `Guarantees.StatusOfInstall` | src/solana_delivery.c:768-820 | For every state and environment: OK, STALE (equal or lower generation), EXHAUSTED, UNSUPPORTED and INVALID each exactly under its own condition; a clock failure passed on |
| `Guarantees.StatusOfRefresh` | src/solana_delivery_discovery.c:53-93 | A refresh with a usable descriptor and an acquired topology is that topology's installation, status and state; a failed acquire gives its own status, a missing topology INTERNAL_ERROR, each bad descriptor its exact refusal, and none of them changes anything |
| `Guarantees.RefreshAllOrNothing` | src/solana_delivery_discovery.c:53-93 | A refresh is OK exactly when the descriptor is usable, the offered topology well formed and newer, its callocs granted and the clock good; only then is the snapshot another one, and it means the offered topology |
| `Guarantees.SubmitRecords` | src/solana_delivery_submission.c:352-432 | What the run theorems know of an acceptance is this call's snapshot, arguments and two clock samples |
| `Guarantees.OutcomeMeans` | src/solana_delivery_submission.c:143-460 | What each call returns, by the exact conditions on arguments, state and environment |
| `Guarantees.BuildGranted` | src/solana_delivery.c:484-494 | A build succeeds exactly when as many consecutive callocs are granted as there are non-empty tables |
| `Topology.ValidateVerdicts` | src/solana_delivery.c:259-406 | Validation answers OK, INVALID_ARGUMENT or UNSUPPORTED and nothing else |
| `Topology.ValidateUnsupported` | src/solana_delivery.c:323-403 | UNSUPPORTED if and only if header and layouts are valid, every validator passes and the first offending endpoint is an unsupported one; every other rejection is INVALID_ARGUMENT |
| `Guarantees.PollsCompose` | src/solana_delivery_events.c:99-130 | For any usable buffer of j + k slots, polling for j and then k events succeeds and yields the events and the state of polling for j + k |
| `Guarantees.PrepareGranted` | src/solana_delivery_submission.c:61-95 | The five allocations of a submission succeed exactly when no byte count exceeds SIZE_MAX and five consecutive callocs are granted |
| `Guarantees.OverflowIsExact` | src/solana_delivery_submission.c:71-76 | The division test refuses exactly the products above SIZE_MAX |
| `Guarantees.ResolvesWhenMatched` | src/solana_delivery_resolution.c:110-113 | A slot resolves to something exactly when some leader with first slot at most it and last slot at least it has an association of its validator |
| `Guarantees.StepKeepsTimely` | src/solana_delivery_submission.c:381-411 | With a steady clock every operation keeps: recorded times lie before every future sample, and accept times are in order |
| `Guarantees.ReachableIsTimely` | src/solana_delivery_submission.c:381-411 | That invariant holds in every reachable history |
| `Runs.ReachableIsSound` | src/solana_delivery_internal.h:75-88 | The whole-run invariant (coherent and strictly newer snapshots, requests as their admissions say, ids, bounded queue, events) holds in every reachable history |
| `Runs.RunIsReachable` | src/solana_delivery_internal.h:75-88 | The run of any given operation sequence from a new client is reachable, so every theorem about reachable histories applies to it |
| `Runs.StepKeepsSound` | src/solana_delivery_internal.h:75-88 | Every operation, accepted or refused, keeps that invariant |
| `Runs.InstallShape` | src/solana_delivery.c:768-820 | What any installation may change: on OK only the snapshot, to a coherent and newer one stamped by the next sample; otherwise not even that |
| `Runs.SubmitShape` | src/solana_delivery_submission.c:143-460 | What any submission may change: on a refusal only how many answers were taken; on OK exactly one commit, every gate having passed |
| `Runs.SubmitKeepsSound` | src/solana_delivery_submission.c:352-432 | A submission keeps ids consecutive, each request true to its admission, and the event sequence aligned with the requests |
| `Runs.InstallKeepsSound` | src/solana_delivery.c:768-820 | An installation leaves accepted requests true to the snapshots they were planned on |
| `Runs.RefreshKeepsSound` | src/solana_delivery_discovery.c:53-93 | So does a refresh, whatever the provider answers |
| `Runs.PollKeepsSound` | src/solana_delivery_events.c:53-137 | A poll moves events from the queue to the drained ones and loses none |
| `Runs.SomeTargetChosen` | src/solana_delivery_submission.c:260-265 | A non-empty resolution always yields at least one owned target |
| `Execution.Execute` | src/solana_delivery_internal.h:75-88 | Any operation sequence on the concrete heap client ends in the state of the abstract run and returns, call by call, the abstract run's statuses, ids and events, the events read out of the caller's byte buffers; nobody else's blocks change, and the live blocks are theirs plus one for the client, one per non-empty table and three per accepted request |
| `Execution.HonestMeans` | include/solana/delivery.h:203-219 | What is asked of a caller and no more: every poll is fine, and so is any submission of a size_t length and any topology with memory up to its last record |
| `Execution.UseAndDestroy` | src/solana_delivery.c:742-766 | However a client is used, after its destruction only the blocks of others are live |
| `Runs.OutcomesTellRun` | src/solana_delivery_submission.c:431-432 | The ids and events returned by the calls of a run are exactly the ids it accepted and the events it drained, in order |
| `Execution.Lifetime` | include/solana/delivery.h:193-210 | Create, any operations, destroy: every call returned what its run says, and the set of live blocks is what it was before |
| `Execution.SubmitThenOverwrite` | docs/architecture/0012-callable-submission-contract.md:143-162 | The caller may overwrite its transaction buffer once the call has returned: the client's state is as if it had not |
| `Execution.InstallThenOverwrite` | include/solana/delivery.h:211-219 | The caller may overwrite its four topology arrays once the call has returned: what is installed is what they held before |
| `Execution.ReadBack` | include/solana/delivery.h:337-339 | Decoding each output slot of the polled byte buffer gives back exactly the drained events |
| `Clients.Client.SubmitTransaction` | src/solana_delivery_submission.c:143-460 | The heap method returns the status and id of the abstract submission and reaches its state on every path; on a refusal the live set and the request blocks are exactly as before; on OK only new request blocks are added; nothing stated rests on what a freed block held |
| `Clients.Client.SubmitFresh` | src/solana_delivery_submission.c:186-457 | The part after admission, with the cleanup that every path ends in: refused means the live set is exactly as before |
| `Clients.Client.FinishSubmission` | src/solana_delivery_submission.c:434-457 | Commit and cleanup: scratch blocks always freed, the request's three only if it was not accepted; the live set is the starting one, plus the request's blocks on OK |
| `Clients.Client.CommitPrepared` | src/solana_delivery_submission.c:352-432 | Id check, field assignments, capacity, clock and commit together refine the last stage of the abstract submission |
| `Clients.Client.CommitRequest` | src/solana_delivery_submission.c:413-432 | The push cannot fail, and event, list and next id move together |
| `Clients.Client.StampRequest` | src/solana_delivery_submission.c:375-395 | Capacity is tested before the clock is sampled, and the sample only against the receipt time |
| `Clients.Client.InstallTopology` | src/solana_delivery.c:768-820 | The heap method has the abstract installation's status and state; on OK the live set loses the old arrays and gains the new ones, all fresh; on any other status live set and installed blocks are exactly as before |
| `Clients.Client.Swap` | src/solana_delivery.c:811-817 | Releasing the old arrays and adopting the new ones loses and double-frees no block; nothing stated rests on what the old arrays held |
| `Clients.Client.PollEvents` | src/solana_delivery_events.c:53-137 | The client's poll has the abstract poll's status, count and state, and the caller's buffer holds exactly the drained events at the stride |
| `Clients.Client.Create` | src/solana_delivery.c:684-718 | On OK an empty client with next id 1 owning one block; otherwise no block at all |
| `Clients.Client.Destroy` | src/solana_delivery.c:742-766 | Frees every block the client owns, each once, and no other, in an order that needs nothing from a block already freed |
| `Clients.Client.OwnedBlockCount` | src/solana_delivery.c:408-465 | In any valid state the client owns one block for itself, one per non-empty topology table and exactly three per accepted request |
| `Clients.Client.HeapIsAccountedFor` | src/solana_delivery.c:408-465 | In any valid state the live blocks are everybody else's plus exactly that many of the client's |
| `Clients.EvaluateSubmissionPolicy` | src/solana_delivery_admission.c:9-53 | One sample, taken only when policy and topology are there; the subtraction never wraps; the verdict is that of the freshness gate |
| `Clients.ValidateSubmitOptions` | src/solana_delivery_submission.c:24-59 | OK exactly for a large enough struct, zero flags and reserved field, nonzero age and limit; UNSUPPORTED exactly for flags in a large enough struct; otherwise INVALID_ARGUMENT, a missing pointer included |
| `Discovery.RefreshTopology` | src/solana_delivery_discovery.c:53-93 | Status and state of the abstract refresh; one acquire exactly when the descriptor is addressable, large enough, without flags and with an acquire callback; one release exactly when a topology was borrowed and a release callback exists, whether or not it was installed; without OK the live set and the installed blocks are exactly as before |
| `Requests.ResolveCandidates` | src/solana_delivery_submission.c:189-241 | Probe, allocate, fill: the probe answers UNAVAILABLE or EXHAUSTED with a positive count and never OK, the second call reproduces the count, and the array is exactly the resolution |
| `Requests.PlanTargets` | src/solana_delivery_submission.c:243-300 | The same for the planner: the cross-checks of counts and statuses cannot fail, and the array is exactly the plan |
| `Requests.MaterializeTargets` | src/solana_delivery_submission.c:97-141 | OK exactly when the plan is non-empty and every index is below its table's count; then each target has the route's three indices and the identity and endpoint at them |
| `Requests.OwnTargets` | src/solana_delivery_submission.c:319-341 | Materialisation of a planned route list never fails |
| `Requests.RoutesInRange` | src/solana_delivery_submission.c:113-123 | Every planned route of a coherent snapshot passes the range checks |
| `Requests.PrepareSubmission` | src/solana_delivery_submission.c:189-350 | Which of the five allocations are made, in order, with which outcome; every block gained is listed; on OK bytes and targets are the submitted ones and the chosen ones |
| `Requests.ReleasePrepared` | src/solana_delivery_submission.c:434-457 | Frees the two scratch arrays, and the three others only on failure, each once; only the contents of freed blocks are given up |
| `Requests.Request.Fill` | src/solana_delivery_submission.c:359-373 | The assigned node holds exactly the accepted request, field by field |
| `RequestLists.ThreeBlocksPerRequest` | src/solana_delivery_internal.h:61-71 | A list of separate requests owns three different non-NULL blocks per request |
| `RequestLists.RequestList.Prepend` | src/solana_delivery_submission.c:422 | The list holds the old requests and the new one, and owns its three blocks |
| `RequestLists.RequestList.NodesHoldLog` | src/solana_delivery_submission.c:359-373 | In any valid list each heap node has exactly the fields of its request, newest at the head, each pointing at the one accepted before it |
| `RequestLists.RequestList.Release` | src/solana_delivery.c:440-465 | Every block of the list is freed, each once, and the list is empty; the frame gives up the contents of every freed block, so each node's successor must be read before the node is freed |
| `Resolution.ResolutionIsTheJoin` | docs/architecture/0009-topology-resolution.md:45-62 | The resolved sequence holds every pair of a leader whose range contains the slot and an association of its validator exactly once, in strictly ascending lexicographic order, and nothing else, all spelled out |
| `Resolution.CandidatesAre` | src/solana_delivery_resolution.c:138-145 | Each candidate has its leader's index and validator and its association's endpoint |
| `Resolution.AscendingIsUnique` | docs/architecture/0009-topology-resolution.md:45-54 | Those facts determine the sequence: any ascending list of exactly the matches equals it |
| `Resolution.CountNeverReachesLimit` | src/solana_delivery_resolution.c:51-55 | With 32-bit counts the running count stays below SIZE_MAX at every scan position, so the overflow branch is unreachable on a 64-bit size_t |
| `Resolution.MatchCountBound` | src/solana_delivery_resolution.c:25-58 | At scan position (i, j) at most i * associations + j matches have been counted |
| `Resolution.ResolvedIndicesValid` | src/solana_delivery_resolution.c:115-147 | All three indices of every resolved candidate lie inside a coherent snapshot |
| `Resolution.CountSlotCandidates` | src/solana_delivery_resolution.c:18-63 | The counting pass returns the length of the resolution and never fails |
| `Resolution.FillSlotCandidates` | src/solana_delivery_resolution.c:115-147 | The filling pass makes exactly as many writes as were counted, each in bounds, in order, and touches nothing beyond them |
| `Resolution.ResolveSlot` | src/solana_delivery_resolution.c:65-150 | Status and count for every capacity; on OK the buffer starts with the resolution and is otherwise unchanged; on any other status it is untouched |
| `Resolution.ScanStep` | src/solana_delivery_resolution.c:40-57 | A match at the scan position is the next element of the final answer, and any other pair changes nothing |
| `Routing.PlanIsBounded` | docs/architecture/0010-route-planner-policy.md:74-83 | No two targets of a plan agree in validator and endpoint; it has exactly min(distinct, limit) of them, all of them when they fit, is a prefix of the unlimited plan, and each is a candidate |
| `Routing.PlanIsMonotone` | src/solana_delivery_route.c:82-117 | The plan for a limit is a prefix of the plan for any larger limit |
| `Routing.PlanIsIdempotent` | src/solana_delivery_route.c:82-117 | Replanning a plan with the same or a larger limit returns it unchanged |
| `Routing.FirstOccurrencesCover` | src/solana_delivery_route.c:18-32 | Deduplication keeps every target, each exactly once |
| `Routing.UniqueCountIsCardinality` | src/solana_delivery_route.c:34-52 | The unique count is the cardinality of the set of (validator index, endpoint index) pairs, and positive for a non-empty input |
| `Routing.PositionsAre` | docs/architecture/0010-route-planner-policy.md:49-61 | Kept candidates are those at increasing positions where no earlier candidate agrees in validator and endpoint, unchanged, so order and leader provenance are the first occurrence's |
| `Routing.CandidateIsFirstOccurrence` | src/solana_delivery_route.c:18-32 | True exactly when no earlier candidate agrees in both validator and endpoint |
| `Routing.CountUniqueTargets` | src/solana_delivery_route.c:34-52 | Counts the first occurrences |
| `Routing.FillRoutes` | src/solana_delivery_route.c:94-117 | The loop always stops with exactly the selected number written: a prefix of the first occurrences, the rest of the buffer untouched |
| `Routing.PlanRoutes` | src/solana_delivery_route.c:54-120 | Status, selected and unique counts for every argument combination; on OK the buffer starts with the plan; on any other status it is untouched |
| `Events.RingPush` | src/solana_delivery_events.c:40-49 | Writing the slot after the last entry appends to the queue wherever the ring wraps |
| `Events.RingAt` | src/solana_delivery_events.c:110-120 | The i-th queued event stands i slots after the head, modulo 64 |
| `Events.EventQueue.Push` | src/solana_delivery_events.c:27-51 | Appends, or leaves a full ring alone: no unread event is overwritten |
| `Events.EventQueue.ContentsAt` | src/solana_delivery_events.c:40-49 | The i-th queued event is the array's entry i slots after the head, modulo 64 |
| `Events.EventQueue.Poll` | src/solana_delivery_events.c:53-137 | For every argument combination: the status, the removed prefix of the queue, its length, and the exact new contents of the caller's buffer |
| `Events.EventQueue.Drain` | src/solana_delivery_events.c:105-125 | The loop removes exactly the first events and scatters them in order |
| `Events.ScatterHolds` | include/solana/delivery.h:318-343 | Slot i of the drained buffer decodes to event i, at any valid stride |
| `Events.ScatterFootprint` | docs/architecture/0013-request-lifecycle-and-event-polling.md:211-222 | No byte outside [i * stride, i * stride + 64) of a drained slot changes |
| `Events.PollOffsetsFit` | src/solana_delivery_events.c:84-88 | For an accepted poll every slot's end is at most capacity * stride, which is at most SIZE_MAX |
| `Events.PollAccepts` | src/solana_delivery_events.c:62-96 | A poll is accepted exactly when the count pointer is good and either the capacity is zero or the buffer is good, the stride at least 64 and a multiple of 8, and capacity times stride at most SIZE_MAX |
| `Events.PollComposes` | src/solana_delivery_events.c:90-96 | Draining j and then k events drains what draining j + k does |
| `Records.EventRoundTrip` | include/solana/delivery.h:305-316 | Decoding the 64 written bytes gives back the event, the signed diagnostic code included |
| `Records.EventLayout` | include/solana/delivery.h:305-316 | The byte offset of every field of a handed-out event, the signed code in two's complement |
| `Records.ValidatorLayout` | include/solana/delivery.h:108-113 | For all field values, the little-endian layout of a validator record decodes to those fields |
| `Records.EndpointLayout` | include/solana/delivery.h:96-106 | The same for an endpoint record |
| `Records.AssociationLayout` | include/solana/delivery.h:120-125 | The same for an association record |
| `Records.LeaderLayout` | include/solana/delivery.h:127-133 | The same for a leader record |
| `Bytes.U16Is` | include/solana/delivery.h:82-133 | A 16-bit field has its low byte first |
| `Bytes.U32Is` | include/solana/delivery.h:82-133 | A 32-bit field has its low byte first |
| `Bytes.U64Is` | include/solana/delivery.h:82-133 | A 64-bit field has its low word first |
| `Topology.ValidateAccepts` | src/solana_delivery.c:259-406 | Validation answers OK exactly for a topology whose header, layouts and every single record are well formed |
| `Format.ValidatesExactlyTheFormat` | src/solana_delivery.c:259-406 | Validation accepts exactly the topologies whose header, layouts and bytes at index * stride meet a format stated without decoders or record checks |
| `Format.ValidatorFormatIs` | src/solana_delivery.c:117-140 | The validator check on decoded fields is the check on the 48 bytes |
| `Format.EndpointFormatIs` | src/solana_delivery.c:142-208 | The endpoint check on decoded fields is the check on the 32 bytes |
| `Format.AssociationFormatIs` | src/solana_delivery.c:210-233 | The association check on decoded fields is the check on the 16 bytes |
| `Format.LeaderFormatIs` | src/solana_delivery.c:235-257 | The leader check on decoded fields is the check on the 32 bytes |
| `Format.InstalledSchedule` | src/solana_delivery.c:467-542 | Each installed association and leader has the fields that stand in the caller's bytes at index * stride, with the library's own struct size |
| `Format.InstalledContacts` | src/solana_delivery.c:467-542 | The same for validators and endpoints |
| `Format.BackedMeans` | src/solana_delivery.c:70-106 | What memory a caller owes: up to the last byte of the last record of each usable array |
| `Topology.ScanRejectsFirst` | src/solana_delivery.c:323-403 | Otherwise a scan's verdict is that of the first offending element, whatever follows it |
| `Topology.ScanRejection` | src/solana_delivery.c:323-403 | Conversely every rejection has a first offending element whose verdict it is |
| `Topology.ScanOk` | src/solana_delivery.c:323-403 | A scan answers OK exactly when every element passes |
| `Topology.EndpointAccepted` | src/solana_delivery.c:142-208 | Exactly which endpoints are accepted, and exactly which are UNSUPPORTED, field by field with every constant spelled out |
| `Topology.ValidatedIsCoherent` | src/solana_delivery.c:210-257 | A validated topology has every association and leader index in range and every slot range non-empty |
| `Topology.ValidateTopology` | src/solana_delivery.c:259-406 | The strided scans over caller memory compute the validation verdict and never read outside it |
| `Topology.ValidateElements` | src/solana_delivery.c:323-403 | One scan loop: first offending verdict in array order, or OK |
| `Topology.ValidateEndpoint` | src/solana_delivery.c:142-208 | The branches in order give the verdict of the combined checks |
| `Topology.ValidateAssociation` | src/solana_delivery.c:210-233 | The branches accept exactly the associations whose size fits, whose reserved field is zero and whose two indices are in range |
| `Topology.ValidateLeader` | src/solana_delivery.c:235-257 | The branches accept exactly the leaders whose size fits, whose reserved field is zero, whose index is in range and whose slot range is not empty |
| `Topology.BytesAreZero` | src/solana_delivery.c:49-60 | True exactly when every byte is zero |
| `Layout.LayoutBoundsEveryAccess` | src/solana_delivery.c:70-106 | The division test accepts exactly when the last byte of the last element fits in size_t; then index * stride + size fits for every index |
| `Layout.OverflowTestNeverRejects` | src/solana_delivery.c:84-96 | With 32-bit counts and strides and a 64-bit size_t that test never rejects by itself |
| `Layout.ElementInside` | src/solana_delivery.c:99-106 | Every element of a covered array lies inside it |
| `Layout.ElementOffset` | src/solana_delivery.c:99-106 | The computed offset of an element is its true offset: the product never wraps |
| `Layout.CloneArray` | src/solana_delivery.c:467-510 | The owned array holds the known prefix of every source element, packed and in order; the one calloc made decides the status |
| `Layout.CopyElements` | src/solana_delivery.c:497-506 | The memcpy loop copies slice by slice inside both arrays |
| `Layout.NormalizeSizes` | src/solana_delivery.c:512-542 | One loop overwrites the size field of every owned element and no other byte |
| `Ownership.BuildOwnedTopology` | src/solana_delivery.c:544-650 | OK exactly when every needed calloc is granted; then an owned copy that means what the source means; otherwise no block is left |
| `Ownership.BuiltMeansSource` | src/solana_delivery.c:467-542 | Cloning and normalising four arrays keeps every record, with only struct_size and stride changed |
| `Ownership.NormalizedRecords` | src/solana_delivery.c:512-542 | The same for one array of any record type |
| `Ownership.ReleaseTopology` | src/solana_delivery.c:408-438 | Frees the four blocks, each once, gives up their contents, and clears the struct |
| `Ownership.CloneTopology` | src/solana_delivery.c:555-610 | Four owned arrays or, after any refusal, none |
| `Ownership.AcquireReplacement` | src/solana_delivery.c:789-809 | A complete stamped replacement, or a live set exactly as before |
| `Ownership.SlotBlockCount` | src/solana_delivery.c:408-438 | An installed topology owns one block per non-empty table |
| `Revalidation.OwnedCopyRevalidates` | src/solana_delivery.c:544-650 | Validating the owned copy answers OK again, and it stands for the same snapshot |
| `Revalidation.ResolvingOwnedIsResolvingSource` | src/solana_delivery_resolution.c:65-150 | For every slot, resolving over the installed copy equals resolving over the source's records |
| `Revalidation.InstalledPreservesMeaning` | src/solana_delivery.c:768-820 | For any client slot that holds an installed topology: its bytes validate again, and every slot resolves over them exactly as over the source |
| `Hosting.Host.AllocateArray` | src/solana_delivery_submission.c:61-95 | Overflowing byte counts are refused without a call; otherwise one calloc decides; a granted block is zeroed, fresh and live |
| `Hosting.Host.Free` | src/solana_delivery.c:440-465 | Only a live block may be freed, and free has the block in its frame with no promise about its fields: every later read is of an unknown value |

## Left out

- The UDP ingress (`src/solana_ingress.c`): socket I/O around a one-branch decoder.
- The system clock and the system allocator: both are the oracle. Nothing is claimed about the arithmetic of the `clock_gettime` conversion.
- Allocator and clock argument checks at creation, and NULL client pointers: single branches. The id and count output pointers are booleans.
- Pointer alignment: a boolean per pointer, plus the stride divisibility tests as the code makes them.
- `size_t` of 32 bits: SIZE_MAX is fixed at 2^64 - 1. On a 32-bit `size_t` the candidate count could overflow.
- Host byte order: fixed to little-endian. Structure padding: the records have none, and their sizes are constants.
- Concurrent use and re-entrant callbacks: excluded by the public contract.
- Transport, attempts, retries, observation events and terminal request states: not implemented by the program.
- The ring, the topology fields and the request list are objects of their own embedded in the client by constant references; together they are one heap block, as in the C structure.
- Provider: its acquire callback answers with constants of the descriptor, and the out-pointer it writes is its second result.
- Long C functions are split into several methods at their stage boundaries: `submit` and `install_topology` are chains of methods here, each with its own contract, and the combined contract is stated on the outermost one.
- Layout.ElementOffset: is also used for the owned arrays, which the program indexes through typed pointers instead of byte offsets.
- Hosting.Host.Free: makes a freed block's contents unknown rather than unreadable, so a read after free fails to verify wherever a result depends on it, and a read whose value is dropped would not.

# ActantDB: verified replication and coordination core

A Dafny model of the parts of ActantDB where several writers meet: the hybrid logical clock,
replicated ingest, last-writer-wins resolution, the session hash chain, the idempotency gate, the
workflow engine, the pub/sub broker, the effect queue, the LRU cache, the predicate language, the
token bucket and the sparse encoder.

## What is modelled

| module | system part |
|---|---|
| HybridClock, Causality | packed 64-bit stamps, the two tick rules and the compare-and-swap loops; then any number of threads and clocks exchanging stamps, one load or swap at a time |
| Ingest, IngestLaws | content-derived event ids, the batch loop with its report, convergence of replicas, the two-way exchange |
| Lww | the resolution order, merges in any order and grouping, per-field and per-row projections |
| Chain | the tamper-evident event chain of a session |
| Dispatch, DispatchRaces | the idempotency keys around commands; then lookup, command and record of any number of calls interleaved |
| WorkflowGraph, WorkflowRunner | Kahn's algorithm with a last-in-first-out ready stack, and the runner under any sequence of host calls |
| Broker, PubSub, Resume | publish and subscribe interleaved statement by statement, with overflowing rings; then the same calls as methods of the broker object; then live-only and resuming consumers |
| Effects, EffectQueue, EffectFate, EffectHistory | claim, report, heartbeat and reap interleaved statement by statement; then the same calls as methods of the queue object; then what becomes of an effect whose worker or reaper stops, and what its columns tell about the run |
| Cache | the map and deque of the cache, against an unbounded recency list |
| Predicates, Grammar, NormalForm, Parser, ParseErrors, Lexer, Rendering, PathText | the predicate evaluator, the recursive-descent parser and its errors, the tokenizer, and a printer for both tokens and text; then paths written without blanks |
| Throttle, Sparse | the token bucket and the sparse dot product, over exact reals |
| Common, Text | shared types; strings, their order and lists without repeats |

Tables are maps or sequences, and a SQL statement is one atomic step. Timestamps are integers,
SHA-256 and the platform's numeral reader and logarithm are function parameters, and ULIDs are
numbers from one increasing generator. In the state machines a step that is not possible leaves
the state as it is, so a run is any sequence of steps. The classes carry the fields that the source
updates; each method is proved equal to the function or the steps that the laws are about.

## Where the code departs from what it promises

Each of these is a lemma below, with the exact condition under which the promise fails.

- A stamp rises strictly only while the 16-bit logical counter has room. A remote physical part of
  2^48 or more is not stored as it is returned, and the stored word falls exactly when what is left
  of that part, with the remote counter bumped, is below the old stamp
  (crates/actant-core/src/hlc.rs:59-61, 134).
- The id preimage is not framed: payload and actor can trade bytes (crates/actant-core/src/ids.rs:68-72).
- Two valid events with one new id and different rows make the stored row depend on arrival order
  (crates/actant-storage/src/repo.rs:270-305).
- The chain query orders by timestamp, so a clock that steps back makes the next event link past the
  one before it (crates/actant-storage/src/repo.rs:336-337); and a read and an append are two
  statements, so concurrent appends fork the chain.
- Dispatches that overlap come to some serial order exactly when no key was looked up twice, by calls
  that succeed, before it was recorded; each such lookup succeeds
  (crates/actant-command/src/lib.rs:142-150).
- With declared edge ends, the length test means "cyclic" exactly when the keys are distinct or there
  is a cycle. Some sequence of host calls panics the runner of an accepted workflow with declared
  sources and no cycle exactly when some edge target is undeclared
  (crates/actant-flow/src/lib.rs:112, 322).
- A backlog larger than the broadcast capacity loses its oldest rows, although `subscribe` promises
  every persisted row first (crates/actant-subscribe/src/broker.rs:149-151, 191-199). Resuming from
  the last id received misses a row with a smaller id that was fanned out before the new attachment,
  which needs overlapping publishes.
- `fail` does what its comment says exactly when the attempts are used up, and otherwise never
  retries; `heartbeat` extends no lease; `start` reopens a finished effect; a worker that stops
  between its update and its insert, or a reaper between its two updates, strands the effect; and
  overlapping reapers break the lease discipline exactly when one gives back an effect that is held
  by then (crates/actant-effects/src/lib.rs:129, 192-218, 230-337).
- The predicate rules say that a missing field is false for every comparator; the code makes `Ne`
  true (crates/actant-subscribe/src/predicate.rs:24, 99-105). A numeric literal is parsed as a float,
  so equality with one holds exactly on a field that holds that float: an integer field never equals
  it, whatever its sign. A path written without blanks is read back exactly when none of its segments
  but the last is a numeral, because numerals take in dots; otherwise it is rejected, or silently
  read as a shorter path (crates/actant-cli/src/predicate_parse.rs:137-142).
- The wait a refused caller is told suffices only for rates of at least 0.001
  (crates/actant-reliability/src/throttle.rs:42-43).

## Model

| member | source | states |
|---|---|---|
| HybridClock.UnpackUndoesPack | crates/actant-core/src/hlc.rs:59-70 | unpacking a packed stamp gives it back exactly when both parts fit the word |
| HybridClock.PackUndoesUnpack | crates/actant-core/src/hlc.rs:59-70 | every word is the packed form of the stamp it unpacks to |
| HybridClock.PackEmbedsOrder | crates/actant-core/src/hlc.rs:30-39 | on stamps that fit, word order is stamp order, strictly and weakly |
| HybridClock.TickRises | crates/actant-core/src/hlc.rs:121-145 | a tick never falls, carries the larger physical time, and rises strictly exactly when the counter has room |
| HybridClock.ObserveRises | crates/actant-core/src/hlc.rs:162-190 | an observation never falls below its inputs and rises strictly above both exactly when neither saturates |
| HybridClock.TickIsLeast | crates/actant-core/src/hlc.rs:121-145 | a tick gives the least stamp above the stored one whose physical part has reached the reading, so its counter restarts when time moves on; with no room left, the largest one |
| HybridClock.ObserveIsLeast | crates/actant-core/src/hlc.rs:162-190 | the same above both the stored and the remote stamp |
| HybridClock.ObserveStoresWhatItReturns | crates/actant-core/src/hlc.rs:178-187 | the returned stamp is the stored one exactly when the remote physical part fits 48 bits |
| HybridClock.WordFallsExactlyWhen | crates/actant-core/src/hlc.rs:178-187 | an observation lowers the stored word exactly when the remote physical part does not fit 48 bits and what is left of it, with the counter bumped, is below the old stamp |
| HybridClock.OverwrittenIsLater | crates/actant-core/src/hlc.rs:123-144 | a compare-and-swap loop among rivals that only raise the word replaces one no older than at its start |
| HybridClock.OverwrittenIsFirstUndisturbed | crates/actant-core/src/hlc.rs:123-144 | the loop goes round exactly while a rival has changed the word, and replaces the first one that none has |
| HybridClock.HlcClock.constructor | crates/actant-core/src/hlc.rs:89-94 | a new clock holds the packed seed |
| HybridClock.HlcClock.LocalTick | crates/actant-core/src/hlc.rs:121-145 | whatever rivals do between load and swap, the call returns and stores the tick of the word it replaced |
| HybridClock.HlcClock.Observe | crates/actant-core/src/hlc.rs:162-190 | the same for an observation of a remote stamp |
| Causality.RunKeepsInv | crates/actant-core/src/hlc.rs:121-190 | in every interleaving of loads and swaps, each event follows the tick rules from the word it replaced and each clock's word is a largest stamp of that clock |
| Causality.StampsFollowCausality | crates/actant-core/src/hlc.rs:121-190 | stamps follow happens-before throughout a run exactly when no swap of it saturated |
| Causality.StampsAreTight | crates/actant-core/src/hlc.rs:121-190 | in every run an unsaturated event carries the least stamp above its direct predecessors whose physical part has reached its reading |
| Causality.TickIsItsSteps | crates/actant-core/src/hlc.rs:121-145 | a tick's steps with nothing in between are one tick of the clock at its reading |
| Causality.ObservationIsItsSteps | crates/actant-core/src/hlc.rs:162-190 | the same for a stamp that arrives and is observed |
| Causality.FailedSwapRetries | crates/actant-core/src/hlc.rs:137-143 | a call whose swap failed is completed by its next load and swap, with its first reading and over the word that beat it |
| Causality.SharedClockStampsIncrease | crates/actant-core/src/hlc.rs:78-83 | calls sharing a clock get distinct stamps, increasing in swap order |
| Causality.WordsNeverFall | crates/actant-core/src/hlc.rs:137-143 | no step of any interleaving lowers a clock's word, saturated or not |
| Causality.PhysicalIsLargestReading | crates/actant-core/src/hlc.rs:126-136 | a stamp's physical part is the largest seed, arrival or wall-clock reading in its causal past |
| Ingest.PreimageIdentifies | crates/actant-core/src/ids.rs:68-72 | equal preimages come from equal payload, stamp and actor exactly when the payload lengths agree |
| Ingest.IdsIdentifyContents | crates/actant-core/src/ids.rs:56-75 | for payloads of one length and no collision of the hash, equal ids are equal contents |
| Ingest.PayloadAndActorCanTradeBytes | crates/actant-core/src/ids.rs:69-72 | two different payload and actor pairs have one id under any hash |
| Ingest.Storage.IngestEvents | crates/actant-storage/src/repo.rs:221-323 | the batch loop computes the rows, the saturating counters, the ordered rejects and the largest valid stamp, and observes that stamp once at the end |
| IngestLaws.IdsAfter | crates/actant-storage/src/repo.rs:269-305 | the ids afterwards are those before plus those of valid events, and no existing row changes |
| IngestLaws.StoredExactlyWhen | crates/actant-storage/src/repo.rs:231-305 | an id is stored afterwards exactly when it was before, or an entry brings it that names a device, is of a known workspace, and has the hash of its own content as its id |
| IngestLaws.NewRowsAreGenuine | crates/actant-storage/src/repo.rs:231-305 | a new row is such an entry of the batch, stored under its own id with its device and stamp |
| IngestLaws.SplittingDoesNotMatter | crates/actant-storage/src/repo.rs:229-318 | any cut of a history into batches gives the same rows |
| IngestLaws.ReplicasConverge | crates/actant-storage/src/repo.rs:204-220 | the ids depend only on the set of valid events, not on order, splitting or repetition |
| IngestLaws.RowsConverge | crates/actant-storage/src/repo.rs:269-305 | two stores end with the same rows, for any order and repetition of the same valid events, when every id is settled: the stored row or the valid events that may set it bring one row only |
| IngestLaws.RowsConvergeExactlyWhen | crates/actant-storage/src/repo.rs:269-305 | two stores end with the same rows in whatever orders each receives a batch exactly when every id is settled |
| IngestLaws.OrderMattersExactlyWhen | crates/actant-storage/src/repo.rs:269-305 | two events commute exactly when they do not bring different rows for one new id |
| IngestLaws.EveryRowIsCounted | crates/actant-storage/src/repo.rs:229-312 | every batch entry is new, repeated or rejected, and the table grows by the number of new ones |
| IngestLaws.ReportAddsUp | crates/actant-storage/src/repo.rs:307-311 | the three parts of the report add up to the batch exactly while neither 32-bit counter overflows |
| IngestLaws.RejectsAreTheInvalid | crates/actant-storage/src/repo.rs:231-267 | the rejects name exactly the invalid positions, each with its id and reason |
| IngestLaws.ReasonsAreExact | crates/actant-storage/src/repo.rs:231-267 | a position is rejected with a reason exactly when that is its first failure: missing device, id not the hash of the content, workspace unknown |
| IngestLaws.TopIsLargest | crates/actant-storage/src/repo.rs:313-317 | the stamp to observe is the largest one of a valid event, and there is one exactly when an event is valid |
| IngestLaws.TicksExceedIngested | crates/actant-storage/src/repo.rs:216-220 | in every interleaving of threads and clocks, a tick made after a clock observed a batch's top exceeds every stamp that passed validation, repeats included, exactly when it has room or the word it replaced was already above them |
| IngestLaws.IngestKeepsKeyed | crates/actant-storage/src/repo.rs:269-281 | every row stays stored under its event's id |
| IngestLaws.MissingIsTheDifference | crates/actant-sync/src/lib.rs:55-61 | the result lists exactly the ids of the first snapshot that the second lacks |
| IngestLaws.MissingFollowsTheSnapshot | crates/actant-sync/src/lib.rs:55-61 | the ids come in the snapshot's order, each as often as there |
| IngestLaws.ExchangeConverges | crates/actant-sync/src/lib.rs:55-61 | after one exchange in both directions the ids agree exactly when every row that a side lacked validates there |
| IngestLaws.ConvergedStoresExchangeNothing | crates/actant-sync/src/lib.rs:55-61 | both differences are empty exactly when the ids agree |
| Lww.ResolveIsTotal | crates/actant-replay/src/conflict.rs:92-97 | the first argument wins exactly when its stamp is later, or the same with the larger actor; a tie means the same stamp and actor, and swapping the arguments flips the answer |
| Lww.ResolveIsTransitive | crates/actant-replay/src/conflict.rs:92-97 | the order is transitive, strictly where a step is strict |
| Lww.WinnerIsOrderFree | crates/actant-replay/src/conflict.rs:74-97 | the winning stamp and actor depend only on the set of them, for every order, grouping and repetition |
| Lww.LastWriterWins | crates/actant-replay/src/conflict.rs:74-97 | no write of a merge is later than its outcome, and none with its stamp has a larger actor |
| Lww.SlotHoldsTheLatest | crates/actant-replay/src/conflict.rs:3-21 | after a replay a slot holds one of the writes made to it, with none later, and none with its stamp by a larger actor |
| Lww.WriteIsOrderFreeExactlyWhen | crates/actant-replay/src/conflict.rs:78-79 | the winning write itself is order-free exactly when the top stamp and actor name one write |
| Lww.FieldsCompeteExactlyWhen | crates/actant-replay/src/conflict.rs:50-74 | two writes compete exactly when they are to one row, and to one field or to two fields neither of which is merged on its own |
| Lww.ReplaysConverge | crates/actant-replay/src/conflict.rs:3-18 | replicas that saw the same operations, in any order and any number of times, show the same projection |
| Lww.OpsCommuteExactlyWhen | crates/actant-replay/src/conflict.rs:16-21 | two operations commute on a projection exactly when they do not tie for a slot with different writes above its content |
| Chain.Chronicle.LastEventHash | crates/actant-storage/src/repo.rs:326-354 | the query returns the hash of the last matching row in key order, or none |
| Chain.Chronicle.AppendChronicle | crates/actant-command/src/lib.rs:249-294 | one row is appended, linked to the queried hash or to 64 zeros |
| Chain.LatestIsLast | crates/actant-storage/src/repo.rs:335-338 | the queried row matches, and no matching row comes after it in key order |
| Chain.AppendLinksToLatest | crates/actant-command/src/lib.rs:249-294 | an append links to the hash of the latest row, by time and then id, of its workspace and session; without a session, of any session of the workspace; and to 64 zeros if there is none |
| Chain.SessionsAreIsolated | crates/actant-command/src/lib.rs:249-294 | a session's rows are what they would be if nothing else had been appended |
| Chain.SessionChainIsFold | crates/actant-command/src/lib.rs:262-269 | with rising keys a session's hashes are the left fold of the link function from 64 zeros over its own payload hashes |
| Chain.LinkIsInjective | crates/actant-core/src/hash.rs:35-38 | with an ideal hash, a link determines the previous hash and the payload hash |
| Chain.LastHashDeterminesPayloads | crates/actant-core/src/hash.rs:35-38 | with an ideal hash, two folds are equal exactly when the payload hashes are |
| Chain.IdealHashExists | crates/actant-core/src/hash.rs:29-38 | the assumptions on the hash are consistent: some function meets them |
| Chain.ChainIsLinearExactlyWhen | crates/actant-storage/src/repo.rs:334-341 | the session chain is the fold exactly when no key before the last went back |
| Chain.EqualHeadsEqualHistories | crates/actant-core/src/hash.rs:35-38 | two sessions end in the same hash exactly when they hold the same payload hashes in the same order |
| Chain.StaleReadsForkExactlyWhen | crates/actant-command/src/lib.rs:263-294 | an append that read its predecessor earlier continues the chain exactly when nothing was appended to the session since |
| Dispatch.Engine.Dispatch | crates/actant-command/src/lib.rs:111-247 | one call looks up, runs and records as the gate prescribes |
| Dispatch.KeyRunsUpToFirstSuccess | crates/actant-command/src/lib.rs:142-150 | for every key, whatever else is dispatched, the command runs until it first succeeds and never again, and the key stands for that success |
| Dispatch.LaterCallsReplay | crates/actant-command/src/lib.rs:142-150 | after that every call with the key changes nothing and is told the first success's id |
| Dispatch.AtMostOneSuccess | crates/actant-storage/src/repo.rs:412-428 | at most one command per key succeeds |
| Dispatch.KeylessCallsAllRun | crates/actant-command/src/lib.rs:142-150 | a call without a key always runs its command |
| Dispatch.RepliesTellWhatHappened | crates/actant-command/src/lib.rs:142-247 | a replay ran nothing and names the recorded command, a failure ran and recorded nothing, a success ran and recorded its own id |
| Dispatch.OverlapIsSerialExactlyWhen | crates/actant-command/src/lib.rs:142-247 | two calls that both looked up first come to some serial order of the two exactly when they do not both succeed under one key |
| DispatchRaces.DispatchIsItsSteps | crates/actant-command/src/lib.rs:142-247 | lookup, command and record with nothing in between are one dispatch |
| DispatchRaces.EveryEarlyLookupSucceeds | crates/actant-command/src/lib.rs:142-247 | in every interleaving a key has exactly as many successes, done or to come, as calls that will succeed looked it up before it was recorded |
| DispatchRaces.InterleavingIsSerialExactlyWhen | crates/actant-command/src/lib.rs:142-247 | an interleaving whose calls have finished gives the answers and records of some serial order exactly when no key has two such lookups |
| WorkflowGraph.BuildTables | crates/actant-flow/src/lib.rs:79-88 | the tables hold each vertex's targets in edge order, repeats included, and its number of incoming edges |
| WorkflowGraph.ReleaseTargets | crates/actant-flow/src/lib.rs:102-110 | the inner loop releases exactly the targets whose count reaches zero |
| WorkflowGraph.DrainReady | crates/actant-flow/src/lib.rs:95-111 | the outer loop emits what the stack discipline prescribes |
| WorkflowGraph.TopologicalOrder | crates/actant-flow/src/lib.rs:78-116 | the method returns the order, or the error of its length test |
| WorkflowGraph.EmittedIsMaximal | crates/actant-flow/src/lib.rs:95-111 | for any workflow, what is emitted has no repeats, puts predecessors first, and leaves out only vertices blocked by one left out |
| WorkflowGraph.NewestIsEmittedNext | crates/actant-flow/src/lib.rs:95-101 | the vertex made ready last is emitted next |
| WorkflowGraph.GreatestRootIsFirst | crates/actant-flow/src/lib.rs:89-101 | the first vertex of a sort is the greatest of those that no edge leads to |
| WorkflowGraph.OrderIsSound | crates/actant-flow/src/lib.rs:77-116 | on a well-formed workflow a result is a permutation of the node keys with every edge pointing forward |
| WorkflowGraph.ErrMeansCycle | crates/actant-flow/src/lib.rs:112-114 | on a well-formed workflow the sort fails exactly when the edges contain a cycle |
| WorkflowGraph.CycleIsRefused | crates/actant-flow/src/lib.rs:112-114 | with declared endpoints a cycle is always refused, repeated keys or not |
| WorkflowGraph.LengthTestMeansCyclicExactlyWhen | crates/actant-flow/src/lib.rs:112-114 | with declared endpoints the length test tells cycles exactly when the keys are distinct or there is a cycle |
| WorkflowGraph.AcyclicIsAcceptedExactlyWhen | crates/actant-flow/src/lib.rs:112-114 | with declared sources and no cycle the sort succeeds exactly when there are as many tabled keys as nodes |
| WorkflowRunner.Runner.Sequenced | crates/actant-flow/src/lib.rs:222-248 | a new runner has every step pending |
| WorkflowRunner.Runner.NextAction | crates/actant-flow/src/lib.rs:257-280 | the call returns and stores what the specification of the next action says |
| WorkflowRunner.Runner.ActionForKey | crates/actant-flow/src/lib.rs:316-386 | the action and the state change for each node type |
| WorkflowRunner.Runner.CompleteStep | crates/actant-flow/src/lib.rs:283-289 | a known step succeeds, an unknown one changes nothing |
| WorkflowRunner.Runner.FailStep | crates/actant-flow/src/lib.rs:292-299 | a known step fails, and the run fails either way |
| WorkflowRunner.Runner.ResolveApproval | crates/actant-flow/src/lib.rs:302-314 | approval succeeds a known step, denial fails it and the run |
| WorkflowRunner.SortedIsRanked | crates/actant-flow/src/lib.rs:220-221 | the sort gives a well-formed workflow an order with each key once and predecessors first |
| WorkflowRunner.DriveKeepsInv | crates/actant-flow/src/lib.rs:257-314 | every sequence of host calls keeps the runner's invariant |
| WorkflowRunner.AtMostOneActive | crates/actant-flow/src/lib.rs:264-275 | at most one step is ever running or awaiting approval |
| WorkflowRunner.NeverPanics | crates/actant-flow/src/lib.rs:265-270 | no sequence of host calls reaches a missing step or node |
| WorkflowRunner.PanicsExactlyWhen | crates/actant-flow/src/lib.rs:265-322 | for any workflow and any order, some sequence of host calls panics exactly when the order holds an undeclared key |
| WorkflowRunner.AcceptedWorkflowPanicsExactlyWhen | crates/actant-flow/src/lib.rs:220-322 | an accepted workflow with declared sources and no cycle can panic exactly when some edge target is undeclared |
| WorkflowRunner.StartsAfterPredecessors | crates/actant-flow/src/lib.rs:257-280 | a step leaves Pending only when nothing failed, nothing is active and all its predecessors succeeded, and no other step moves |
| WorkflowRunner.StartsAfterAncestors | crates/actant-flow/src/lib.rs:257-280 | the same along whole paths of the graph |
| WorkflowRunner.NothingStartsAfterFailure | crates/actant-flow/src/lib.rs:258-262 | a failed run stays failed and nothing becomes active again |
| WorkflowRunner.DoneMeansAllSucceeded | crates/actant-flow/src/lib.rs:276-279 | Done with status Succeeded is returned exactly when nothing failed and every step succeeded |
| WorkflowRunner.CooperativeHostFinishes | crates/actant-flow/src/lib.rs:257-280 | a host that answers every action gets one action per node in order and then Done with Succeeded |
| WorkflowRunner.DenialEndsTheRun | crates/actant-flow/src/lib.rs:302-314 | after any calls, a denied approval fails its step with the error "denied" and fails the run, and the next action is the end |
| WorkflowRunner.FailureEndsTheRun | crates/actant-flow/src/lib.rs:292-299 | a failure report fails the run whether or not the step is known, keeps the error with a known step, and the next action is the end |
| WorkflowRunner.CompletionIsRecorded | crates/actant-flow/src/lib.rs:283-289 | a completed step has succeeded with the output reported and the run goes on as it was; an unknown key changes nothing |
| WorkflowRunner.ApprovalIsRecorded | crates/actant-flow/src/lib.rs:302-314 | an approval is a completion with the approval as output; for an unknown key neither answer changes anything |
| WorkflowRunner.ReportsTouchOneStep | crates/actant-flow/src/lib.rs:283-314 | a report about one key changes no other step |
| WorkflowRunner.AskingAgainRepeats | crates/actant-flow/src/lib.rs:263-268 | asking again before reporting gives the same action and changes nothing |
| WorkflowRunner.ActionsCarryTheConfiguration | crates/actant-flow/src/lib.rs:316-386 | a tool, its arguments, a prompt, a summary and the seconds are those of the step's own node, or the defaults |
| WorkflowRunner.FirstAskMovesTheStep | crates/actant-flow/src/lib.rs:269-386 | a step asked about for the first time awaits approval, is running or has succeeded as a no-op, by the type of its node |
| WorkflowRunner.StepsCarryTheirKeys | crates/actant-flow/src/lib.rs:222-248 | in every run each step carries the key it is kept under |
| Broker.RunKeepsInv | crates/actant-subscribe/src/broker.rs:91-219 | every interleaving of publishers, subscribers and forwarders keeps the accounting invariant |
| Broker.DeliveryIsAccounted | crates/actant-subscribe/src/broker.rs:148-219 | a completed envelope past the cursor came by backfill, live tail or both unless cut by the limit, and was received that often less its ring losses |
| Broker.EveryEnvelopeArrives | crates/actant-subscribe/src/broker.rs:168-181 | without loss, every completed envelope past the cursor is received once or twice |
| Broker.TwiceHappens | crates/actant-subscribe/src/broker.rs:168-216 | the bound of two is reached: a row stored before the query and fanned out after the attachment comes both ways, with nothing lost |
| Broker.OnlyOwnRowsArrive | crates/actant-subscribe/src/broker.rs:225-237 | only stored rows of the subscriber's own workspace and topic arrive, older ones only over the live tail |
| Broker.BacklogMustFitTheRing | crates/actant-subscribe/src/broker.rs:191-199 | the backfill survives until the first read exactly when it fits the ring |
| Broker.TailIsTheFuture | crates/actant-subscribe/src/broker.rs:168-185 | from attachment on the live receiver is sent exactly what completes later for its key |
| Broker.SerialPublishesArriveInOrder | crates/actant-subscribe/src/broker.rs:148-153 | with publishes one at a time and no loss, skipping repeats leaves exactly the rows past the cursor in id order |
| Resume.DirectReceivesTheFuture | crates/actant-subscribe/src/broker.rs:168-185 | a drained subscriber without a cursor received or lost, once, exactly what completed for its key after the attachment, and received it in the order sent when nothing was lost |
| Resume.SubscriptionsKeepTheirTerms | crates/actant-subscribe/src/broker.rs:154-219 | a subscription stays with its workspace and topic, and queries from its cursor exactly when it was opened with one |
| Resume.TopicsAreNamed | crates/actant-subscribe/src/broker.rs:91-166 | no row and no subscription ever has an empty topic |
| Resume.BackfillIsLimited | crates/actant-subscribe/src/broker.rs:225-261 | a new subscription gets the first ten thousand matching rows |
| Resume.ResumeMissesExactlyWhen | crates/actant-subscribe/src/broker.rs:148-219 | a drained resumed subscriber without loss misses a completed envelope of its key exactly when that is no newer than the cursor and was fanned out before the attachment |
| Resume.SerialResumeMissesNothing | crates/actant-subscribe/src/broker.rs:148-153 | with publishes one at a time and no loss, stopping anywhere and resuming from a received id misses nothing |
| Resume.OverlapCanBeMissed | crates/actant-subscribe/src/broker.rs:91-146 | with overlapping publishes a run exists that misses a row whose id is below the cursor |
| Broker.PushAllKeepsNewest | crates/actant-subscribe/src/broker.rs:191-199 | filling an empty ring keeps the newest and loses the oldest |
| Broker.QueryIsExact | crates/actant-subscribe/src/broker.rs:231-241 | the backfill query returns exactly the matching rows in id order |
| PubSub.PubSub.WithCapacity | crates/actant-subscribe/src/broker.rs:78-87 | a new broker is empty, and a capacity of zero becomes one |
| PubSub.PubSub.Publish | crates/actant-subscribe/src/broker.rs:91-146 | an empty topic is refused, otherwise the call is number, insert and fan-out |
| PubSub.PubSub.ReplaySince | crates/actant-subscribe/src/broker.rs:225-261 | the first ten thousand matching rows in id order |
| PubSub.PubSub.Subscribe | crates/actant-subscribe/src/broker.rs:154-219 | the call is open, attach and backfill, in that order |
| PubSub.PubSub.ForwardAll | crates/actant-subscribe/src/broker.rs:202-216 | the forwarder moves every waiting envelope and then waits |
| Effects.RunKeepsInv | crates/actant-effects/src/lib.rs:158-339 | every interleaving with one reaper keeps each effect's ledger of claims, attempts and grants |
| Effects.LeaseDiscipline | crates/actant-effects/src/lib.rs:156-227 | a pending effect is unclaimed with attempts left, no effect has two unreleased claims, and claims are released only after they expire |
| Effects.GrantsAreBounded | crates/actant-effects/src/lib.rs:82-83 | an effect is granted at most three times, so E effects admit at most 3 E leases |
| Effects.ReopenedExactlyBy | crates/actant-effects/src/lib.rs:229-289 | a finished effect is reopened exactly by an unguarded start or by a reaper acting on a row it read earlier |
| Effects.StepKeepsLedgerExactlyWhen | crates/actant-effects/src/lib.rs:158-339 | with any number of reapers a step keeps the ledger of claims, attempts and grants exactly when it is not a reaper giving back an effect that is held, or out of attempts, by then |
| EffectFate.LedgerHoldsExactlyWhen | crates/actant-effects/src/lib.rs:158-339 | with any number of reapers the ledger holds throughout a run exactly when no step of it is of that kind |
| EffectFate.ResetBreaksDisciplineExactlyWhen | crates/actant-effects/src/lib.rs:308-337 | a reaper's second update leaves a pending effect that someone holds exactly when the row it read has attempts left and its effect is held by then |
| Effects.OverlappingReapersBreakDiscipline | crates/actant-effects/src/lib.rs:294-339 | the condition of EffectFate.ResetBreaksDisciplineExactlyWhen is met in some run: one with two overlapping reapers leaves an effect pending under a live claim |
| EffectFate.HeartbeatsChangeNothingElse | crates/actant-effects/src/lib.rs:129-154 | dropping every heartbeat and registration from any run changes nothing but when workers were last heard of |
| EffectFate.HeartbeatsDoNotExtendLeases | crates/actant-effects/src/lib.rs:129-154 | an expired claim is released by the next reap however many heartbeats came in between |
| EffectFate.FailKeepsItsPromiseExactlyWhen | crates/actant-effects/src/lib.rs:278-289 | a failure leaves the status that the comment promises exactly when the attempts are used up |
| EffectFate.FailureIsFinal | crates/actant-effects/src/lib.rs:278-289 | a failed effect that no reaper had read stays finished until somebody starts it |
| EffectFate.StrandedForever | crates/actant-effects/src/lib.rs:192-339 | an effect that is not pending, not held and on no reaper's list stays so in every continuation |
| EffectFate.AbandonStrands | crates/actant-effects/src/lib.rs:192-218 | a worker that stops between its update and its insert strands the effect it won, for every continuation |
| EffectFate.StoppedReaperStrands | crates/actant-effects/src/lib.rs:308-337 | a reaper that stops between its two updates strands the effect whose claim it released, for every continuation |
| EffectFate.ReturnableExactlyWhen | crates/actant-effects/src/lib.rs:291-339 | with no reaper at work some continuation makes an effect pending again exactly when someone holds it, or is about to, and attempts are left |
| EffectHistory.StatusTellsTheLastTouch | crates/actant-effects/src/lib.rs:158-339 | in every run the status of an effect tells the last step that touched it: succeeded exactly when that was a completion |
| EffectHistory.AttemptsAreWins | crates/actant-effects/src/lib.rs:192-206 | in every run the attempts of an effect are the claims that won it |
| EffectHistory.SelectPicksAnOldest | crates/actant-effects/src/lib.rs:168-186 | a free call chooses an effect exactly when it is pending, of the workspace and a type asked for, and none such is older |
| EffectHistory.TermsStay | crates/actant-effects/src/lib.rs:53-88 | workspace, type, creation time and attempt limit of an effect never change |
| EffectHistory.HolderIsTheOwner | crates/actant-effects/src/lib.rs:192-218 | with one reaper at a time an effect that is held, or about to be, is assigned to its holder |
| EffectHistory.SuccessesAreRecorded | crates/actant-effects/src/lib.rs:259-274 | a success row carries the number of claims that had won the effect by then, and no other step adds one |
| EffectHistory.SeenIsLastHeard | crates/actant-effects/src/lib.rs:91-154 | a worker is known exactly when it registered, and was last heard of at its latest registration or heartbeat |
| EffectQueue.EffectQueue.Enqueue | crates/actant-effects/src/lib.rs:53-88 | the row starts pending with no attempts of three |
| EffectQueue.EffectQueue.Oldest | crates/actant-effects/src/lib.rs:168-186 | the query finds an oldest eligible effect exactly when there is one |
| EffectQueue.EffectQueue.ClaimOne | crates/actant-effects/src/lib.rs:158-227 | undisturbed, a claim fails exactly when nothing is eligible, and otherwise is select, guarded update and insert on an oldest effect with a sixty-second lease |
| EffectQueue.EffectQueue.Start | crates/actant-effects/src/lib.rs:230-237 | sets the status to running whatever it was |
| EffectQueue.EffectQueue.Complete | crates/actant-effects/src/lib.rs:240-276 | sets the status to succeeded whatever it was, and adds a result row with the attempt count |
| EffectQueue.EffectQueue.Fail | crates/actant-effects/src/lib.rs:280-289 | sets the status to failed whatever it was |
| EffectQueue.EffectQueue.RegisterWorker | crates/actant-effects/src/lib.rs:91-127 | replaces the worker's row |
| EffectQueue.EffectQueue.Heartbeat | crates/actant-effects/src/lib.rs:130-154 | notes when a registered worker was heard of, and nothing else |
| EffectQueue.EffectQueue.ExpiredRows | crates/actant-effects/src/lib.rs:296-306 | the join lists each expired unreleased claim of an active effect once |
| EffectQueue.EffectQueue.ReapExpired | crates/actant-effects/src/lib.rs:294-339 | the loop processes every listed row and counts it; undisturbed it is the statements the interleaving has |
| EffectQueue.QuietReapClearsExpired | crates/actant-effects/src/lib.rs:291-293 | an undisturbed reap leaves no expired claim |
| EffectQueue.UntouchedEffect | crates/actant-effects/src/lib.rs:308-337 | a reap leaves alone every effect that no listed row names |
| EffectQueue.QuietReapDecides | crates/actant-effects/src/lib.rs:315-334 | an undisturbed reap returns an expired effect to pending exactly when it has attempts left and fails it otherwise |
| Cache.ActantCache.WithMaxEntries | crates/actant-contracts/src/cache.rs:52-61 | a new cache is empty |
| Cache.ActantCache.Touch | crates/actant-contracts/src/cache.rs:24-27 | the key moves to the back of the deque, once |
| Cache.ActantCache.EvictUntilRoom | crates/actant-contracts/src/cache.rs:29-41 | pops from the front until there is room, clearing the map if the deque runs out |
| Cache.ActantCache.Get | crates/actant-contracts/src/cache.rs:69-77 | returns the stored value and refreshes only a hit |
| Cache.ActantCache.Put | crates/actant-contracts/src/cache.rs:80-90 | evicts only for a new key, then stores and refreshes |
| Cache.EvictedDropsOldest | crates/actant-contracts/src/cache.rs:29-41 | on a consistent cache exactly the least recent key of a full cache goes, and the clearing branch is never taken |
| Cache.EvictionMakesRoom | crates/actant-contracts/src/cache.rs:29-41 | eviction leaves room and adds nothing, even on a deque that does not list every key |
| Cache.RunKeepsInv | crates/actant-contracts/src/cache.rs:23-91 | after any run the deque has no repeats, lists the map's keys, and respects the bound |
| Cache.CacheIsEndOfRecency | crates/actant-contracts/src/cache.rs:68-90 | the cache holds exactly the last keys of an unbounded recency list, each with its latest value |
| Cache.SmallerCacheIsIncluded | crates/actant-contracts/src/cache.rs:23-91 | for the same calls a smaller cache's recency list is a subsequence of a larger one's and they agree on shared values |
| Predicates.ResolvePath | crates/actant-subscribe/src/predicate.rs:132-148 | the loop walks objects and arrays segment by segment or finds nothing |
| Predicates.PathsCompose | crates/actant-subscribe/src/predicate.rs:132-148 | following a dotted path is following its parts from left to right |
| Predicates.EmptySegmentsFindNothing | crates/actant-subscribe/src/predicate.rs:135-137 | a path with an empty segment finds nothing |
| Predicates.NumeralsPickElements | crates/actant-subscribe/src/predicate.rs:140-143 | a segment picks an array element exactly when it is a numeral, with or without a plus sign, within a machine word and the array; it is then the one at that position |
| NormalForm.SegmentsPick | crates/actant-subscribe/src/predicate.rs:138-145 | a name picks that field of an object, a decimal that element of an array, counted from zero, and a scalar has neither |
| Predicates.ExistsMeansEqualToSomething | crates/actant-subscribe/src/predicate.rs:118 | a field exists exactly when it equals some value |
| Predicates.MissingFieldSatisfiesOnlyNe | crates/actant-subscribe/src/predicate.rs:91-117 | on a missing field a comparison holds exactly when the comparator is Ne |
| Predicates.OrderComparisonsExclude | crates/actant-subscribe/src/predicate.rs:106-117 | the order comparisons hold as the value found stands to the literal: numbers by size, strings by dictionary order, false before true; all four fail on a missing field or one of another kind, and otherwise one of each complementary pair holds |
| Predicates.NumbersCompareByValue | crates/actant-subscribe/src/predicate.rs:150-168 | on numbers in any form the comparisons are those of the reals |
| Text.TextLessIsDictionaryOrder | crates/actant-subscribe/src/predicate.rs:170 | the order of strings is decided at the first difference, where one ends or has the smaller character |
| Predicates.FloatLiteralMatchesExactly | crates/actant-subscribe/src/predicate.rs:95-117 | equality with a float literal holds exactly on a field that holds that float, while both order comparisons hold exactly on every numerically equal field |
| Predicates.EqualityMissesExactlyIntegers | crates/actant-subscribe/src/predicate.rs:95-117 | a field is numerically equal to a float literal without being Eq to it exactly when it is an integer, of either sign |
| Grammar.ParserDecidesGrammar | crates/actant-cli/src/predicate_parse.rs:195-324 | the parser returns a tree for exactly the token sequences the grammar derives, and that tree derives them |
| Grammar.GrammarIsUnambiguous | crates/actant-cli/src/predicate_parse.rs:5-16 | a token sequence has at most one derivation |
| NormalForm.FlatteningPreservesMeaning | crates/actant-cli/src/predicate_parse.rs:199-229 | merging left operands of AND and OR never changes the value on any document |
| NormalForm.BuildIsNormal | crates/actant-cli/src/predicate_parse.rs:195-324 | every parse is in normal form: two or more parts, the first not of the same kind |
| NormalForm.PrintThenParse | crates/actant-cli/src/predicate_parse.rs:327-338 | parsing the printed tokens of a normal form gives it back |
| NormalForm.ParserImageIsNormalForms | crates/actant-cli/src/predicate_parse.rs:327-338 | the predicates the parser can return on tokenizer output are exactly the normal forms |
| Parser.PredicateParser.ParseOr | crates/actant-cli/src/predicate_parse.rs:199-213 | the loop consumes what the grammar's disjunction consumes and builds its predicate |
| Parser.PredicateParser.ParseAnd | crates/actant-cli/src/predicate_parse.rs:215-229 | the same for conjunctions |
| Parser.PredicateParser.ParseNot | crates/actant-cli/src/predicate_parse.rs:231-238 | the same for negations |
| Parser.PredicateParser.ParseAtom | crates/actant-cli/src/predicate_parse.rs:240-290 | the same for parentheses, EXISTS, constants and comparisons, with the source's error for each failure |
| Parser.PredicateParser.ParseField | crates/actant-cli/src/predicate_parse.rs:292-309 | the loop joins the segments of a dotted path |
| Parser.PredicateParser.ParseLiteral | crates/actant-cli/src/predicate_parse.rs:311-324 | literals of each kind, numbers as floats |
| Parser.ParseAll | crates/actant-cli/src/predicate_parse.rs:327-338 | the parser object computes the grammar's predicate or its first error, trailing tokens included |
| ParseErrors.NoAtom | crates/actant-cli/src/predicate_parse.rs:240-290 | nothing to parse and a token that starts no atom give their own errors |
| ParseErrors.UnclosedParenthesis | crates/actant-cli/src/predicate_parse.rs:242-248 | a parenthesis that is not closed after its expression |
| ParseErrors.UnfinishedExists | crates/actant-cli/src/predicate_parse.rs:249-261 | EXISTS without its parentheses or without a path |
| ParseErrors.UnfinishedPath | crates/actant-cli/src/predicate_parse.rs:292-309 | a path that ends in a dot, or goes on with what is no segment |
| ParseErrors.UnfinishedComparison | crates/actant-cli/src/predicate_parse.rs:270-286 | a path without operator or literal, or with another token for the operator, the literal being looked for first |
| ParseErrors.TrailingTokensAreRefused | crates/actant-cli/src/predicate_parse.rs:327-338 | an expression followed by anything is refused where it ends |
| ParseErrors.NumeralsReadAsFloats | crates/actant-cli/src/predicate_parse.rs:311-324 | a numeral is read as a float, or as null when it is too large for one |
| Lexer.UnescapeIsOnePass | crates/actant-cli/src/predicate_parse.rs:121-125 | the three chained replacements equal one left-to-right unescape, on every text |
| Lexer.KeywordsIgnoreCase | crates/actant-cli/src/predicate_parse.rs:150-170 | keywords are read in any mix of cases and every other word is kept as written |
| Lexer.ScanString | crates/actant-cli/src/predicate_parse.rs:111-117 | the inner loop stops at the closing quote or at the end |
| Lexer.Tokenize | crates/actant-cli/src/predicate_parse.rs:47-176 | the index loop gives the tokens of the text or its first error |
| Rendering.QuotedStringIsOneToken | crates/actant-cli/src/predicate_parse.rs:107-128 | quoting any text with either quote gives one string token with exactly that text |
| Rendering.SignedNumeralLexes | crates/actant-cli/src/predicate_parse.rs:130-147 | a digit, or a minus sign and a digit, with all numeral characters after it is one number token, or an error if the platform reads no number |
| Rendering.WhitespaceIsSkipped | crates/actant-cli/src/predicate_parse.rs:53-56 | blanks, tabs and line ends of every kind are skipped |
| Rendering.StrayCharactersFail | crates/actant-cli/src/predicate_parse.rs:77-173 | single equals and exclamation signs, a minus sign without a digit, and every character that starts no token are errors |
| Rendering.RenderAllThenLex | crates/actant-cli/src/predicate_parse.rs:47-176 | writing tokens out and tokenizing the text gives them back |
| Rendering.Parse | crates/actant-cli/src/predicate_parse.rs:327-338 | tokenizer and parser object together compute the parse of a text |
| Rendering.ParsedTextIsNormal | crates/actant-cli/src/predicate_parse.rs:327-338 | whatever the text, a successful parse is in normal form |
| Rendering.WriteThenParseText | crates/actant-cli/src/predicate_parse.rs:327-338 | writing a normal form out as text and parsing the text gives it back |
| Rendering.ParsedEqualityMissesIntegers | crates/actant-cli/src/predicate_parse.rs:311-324 | whatever the text, a parsed equality with a numeral holds exactly on a field that holds that float |
| PathText.CleanPathReadsBack | crates/actant-cli/src/predicate_parse.rs:292-309 | a path written without blanks whose segments before the last are names is read back |
| PathText.SwallowedPathReadsAs | crates/actant-cli/src/predicate_parse.rs:137-142 | any other path is accepted exactly when the characters taken for a numeral read as an index, and is then silently read as the path with that index in their place |
| PathText.MisreadIsShorter | crates/actant-cli/src/predicate_parse.rs:137-142 | the path read in that case is another one: it has fewer segments |
| PathText.PathReadsBackExactlyWhen | crates/actant-cli/src/predicate_parse.rs:137-142 | a path written without blanks is read back exactly when no segment before the last is a numeral |
| Throttle.Bucket.constructor | crates/actant-reliability/src/throttle.rs:26-33 | a new bucket is full |
| Throttle.Bucket.Refill | crates/actant-reliability/src/throttle.rs:48-53 | credits the elapsed time up to the limit and restarts from the second reading |
| Throttle.Bucket.TryConsume | crates/actant-reliability/src/throttle.rs:36-46 | refills, then grants or tells the wait |
| Throttle.LevelStaysWithinExactlyWhen | crates/actant-reliability/src/throttle.rs:48-52 | the level stays between empty and full over all runs exactly when the rate is not negative |
| Throttle.TokensAreConserved | crates/actant-reliability/src/throttle.rs:36-53 | tokens handed out and still held never exceed those held before plus what was credited |
| Throttle.WindowsOfARun | crates/actant-reliability/src/throttle.rs:8-14 | in every window of every run at most the limit plus the rate times its length is granted |
| Throttle.WaitIsEnoughExactlyWhen | crates/actant-reliability/src/throttle.rs:42-44 | retrying after exactly the told wait succeeds exactly when the request fits the limit and the rate is at least 0.001 |
| Throttle.NoShorterWaitSuffices | crates/actant-reliability/src/throttle.rs:42-44 | a refused caller that comes back sooner than told is refused again, at any rate the wait is computed with |
| Throttle.EmptyRequestsAreGranted | crates/actant-reliability/src/throttle.rs:36-40 | a request for nothing is granted even of a bucket in debt |
| Throttle.OversizedRequestsAreRefused | crates/actant-reliability/src/throttle.rs:38-41 | a request above the limit is refused after any run |
| Sparse.Dot | crates/actant-embedders/src/sparse.rs:33-48 | the two-cursor loop computes the sum over common ids on ascending vectors |
| Sparse.DotIsTheSum | crates/actant-embedders/src/sparse.rs:31-48 | on ascending vectors merge and sum agree, from either side |
| Sparse.UnsortedVectorsLoseProducts | crates/actant-embedders/src/sparse.rs:31-32 | on unsorted indices a common id is stepped over |
| Sparse.Bm25Encoder.IndexDocument | crates/actant-embedders/src/sparse.rs:136-149 | keeps document frequencies, document count and token total equal to their definitions over the documents indexed |
| Sparse.Bm25Encoder.Finalize | crates/actant-embedders/src/sparse.rs:152-159 | the average times the number of documents is the number of tokens |
| Sparse.Bm25Encoder.Encode | crates/actant-embedders/src/sparse.rs:177-211 | each id of the text once, ascending, with its BM25 weight |
| Sparse.IdfIsPositive | crates/actant-embedders/src/sparse.rs:162-168 | the logarithm is always taken above one |
| Sparse.IdfFallsWithFrequency | crates/actant-embedders/src/sparse.rs:162-168 | the more documents hold a term, the less it counts |
| Sparse.WeightGrowsWithCount | crates/actant-embedders/src/sparse.rs:191-204 | a term's weight grows with its count and stays below its limit |
| Sparse.WeightFallsWithLength | crates/actant-embedders/src/sparse.rs:191-204 | the same count weighs less in a longer text, and one occurrence at average length weighs exactly the inverse document frequency |
| Sparse.CountIsPositions | crates/actant-embedders/src/sparse.rs:186-189 | a term's count is the number of positions that hold it |
| Sparse.FrequencyIsHolders | crates/actant-embedders/src/sparse.rs:136-145 | a term's document frequency is the number of documents that hold it |
| Sparse.TotalIsAllTokens | crates/actant-embedders/src/sparse.rs:146-147 | the token total is the length of all documents together |
| Sparse.EncodedWeight | crates/actant-embedders/src/sparse.rs:177-211 | an id weighs its BM25 weight if it occurs and nothing otherwise |
| Sparse.EncodingIsUnique | crates/actant-embedders/src/sparse.rs:190-209 | the encoding does not depend on the map's iteration order |
| Sparse.EncodedDotIsTheSum | crates/actant-embedders/src/sparse.rs:31-48 | encoded vectors meet what the dot product asks for |

## Left out

- Storage errors: every SQL statement succeeds (an insert of a published row may fail); foreign keys of an ingested batch are satisfied.
- The Postgres mirror, HTTP, WebSocket, GraphQL, metrics, command line, FFI wrappers and object stores: input and output over libraries.
- WAL backup and restore: correctness rests on SQLite's recovery.
- SHA-256, ULID generation, RFC 3339 text and JSON canonicalization: functions, increasing numbers and integers stand for them.
- Rounding: tokens, waits, weights and averages are exact reals, and a wait is not rounded to a Duration.
- Interleavings are modelled on values, in Causality, DispatchRaces, Broker and Effects; the classes HlcClock, Engine, PubSub and EffectQueue are the same calls as methods, run without interference except for what a compare-and-swap loop meets.
- Non-ASCII predicate text, and the offset in the "unexpected character" message.
- The input hash that an idempotency record stores and nothing compares.
- Tokenization of documents for BM25, the FNV hash of a token and the 32-bit overflow of document counts.
- How commands choose their session: an append carries any session or none.
- Auth routes, policy evaluation, circuit breaker, drift scores, template substitution and context budgets: branch checks and counting.
- Lww.ReplaysConverge: asks that writes to one slot with one stamp and actor are one write; without it the winner is unique only up to stamp and actor, which is Lww.WinnerIsOrderFree.
- PubSub.PubSub.WithCapacity: the capacity is the number of slots a ring really has; a channel library that rounds a requested capacity up gives the laws with the rounded number.
- The capability rows of register_worker and the heartbeat log: nothing of the queue reads them.
- Broker.EveryEnvelopeArrives: asks that no ring overflowed and the limit did not cut; the general accounting is Broker.DeliveryIsAccounted.
- Chain.LastHashDeterminesPayloads: idealizes the hash as free of collisions, of colons and of the seed.

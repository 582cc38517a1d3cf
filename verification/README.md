# Maroon node: model and proofs

A maroon node keeps a store of transactions, an index of how far each key range is held without gaps,
and what it has heard about its peers. From the latter it derives, per range, an offset that
`consensus_nodes` peers have reached, and turns the progress of these offsets into epochs, a hash chain
over them and a linear log of transaction identifiers. This project models one node (its state, its
event handlers, their loops) and a system of any number of nodes over a network that loses, duplicates
and reorders, and proves what holds in every reachable state and over every run.

## Structure

- `RangeKey`: identifiers, intervals, the interval iterator (common/src/range_key.rs).
- `Indexing`: the store and the incremental index over it.
- `Histories`: whole histories of deliveries, and which stores they determine the index of.
- `Consensus`: the consensus offset of a range as an order statistic.
- `Delays`: which identifiers to request from which peer.
- `Serving`: answering such a request.
- `Epochs`, `Linearizer`, `Commits`: hash chain, log, committed offsets.
- `Nodes`: a node as a value; each event is a function on it.
- `Effects`: what each event does to a node, in plain terms, as relations that name none of the functions
  computing it. The handlers and the steps of the system are both proved to have these effects.
- `Application`: the class `App`, with the fields and loops of maroon/src/app/app.rs. Every handler is
  proved to take the node of `Nodes` one step further.
- `Protocol`: the system of nodes built from the same functions, its invariant and runs.
- `Theorems`: the results about reachable states and runs.
- `Logs`: the order of identifiers in a log, and when whole logs agree.
- `Progress`: catching up and convergence. `Runs`, `Rounds`: building runs, and the rounds that every
  reachable state has ahead of it. `Witnesses`: runs that show what the program does not promise.
- `Iteration`, `Sorting`, `Wrappers`: hash-map order, library sort, optional values.

`dafny verify dfyconfig.toml` checks everything.

## How the program is rendered

- A hash map yields its keys in an arbitrary order. Loops over one pick any remaining key; the order
  taken is a ghost result of the method and a parameter of the step, so every statement is for all orders.
- `async` selection between events is the free choice of the next action in a run.
- What was sent stays available. Not delivering it is loss, delivering it again duplication, and any
  order is allowed. A state reaches every node but its sender, requests and answers reach one peer
  (maroon/src/network/p2p.rs:191-230 and 293-322).
- A panic is `None` or a precondition (`Nodes` messages must name the receiver, as the sender at
  maroon/src/network/p2p.rs:161 ensures); a 64-bit quantity is assigned to the type `u64`, so each such
  assignment is proved not to overflow. A scan that never ends marks the node as hung.
- SHA-256 (FIPS 180-4, section 6.2) is a parameter: any function to 32 bytes.
- The library sorts are a stable insertion sort; `Sorting.SortedUnique` shows that under a total order
  the choice of algorithm cannot matter.
- In `consensus_maximum` the collected references are modelled as entries (peer, offset).

Assumptions: peer identifiers are distinct (a fresh key per process, maroon/src/network/p2p.rs:77-78); a
state carries its sender's own `self_offsets` (maroon/src/app/app.rs:194-196) and does not come back to
the sender; identifiers from gateways do not exceed `MAX_BLOCK_INDEX * SINGLE_BLOB_SIZE`
(common/src/range_key.rs:142), the bound at which decoding panics. Each node may have its own
`consensus_nodes`.

## Where the code does less than one might expect

- `start >= *offset` (maroon/src/app/app.rs:263) skips an increment of a single transaction: a range is
  fully committed after a tick if and only if its outstanding part is not exactly one offset
  (`Commits.CommitLag`, `Commits.SingleTransactionSkipped`).
- Serving does not advance over an identifier that is not held (maroon/src/app/app.rs:173-175): the scan
  ends if and only if all requested identifiers are held (`Serving.ServingExact`). In the system this is
  always so (`Theorems.ServingTerminates`).
- The prefix scan runs from a full blob into the next one (maroon/src/app/app.rs:337-340). It finds the
  longest prefix if and only if the first range from there on that is not full is the range itself or has
  not begun (`Indexing.ScanExact`), and it goes back behind the recorded offset if and only if that range
  is another one, has begun, and is not held that far (`Indexing.ScanLowersExactly`). A store decides
  about a range: whatever the history, the recorded offset is exact, is the same, and has never gone back,
  if and only if not both the blob is full and the next one has begun (`Histories.ExactHistories`,
  `Witnesses.IndexGoesBackExactly`). One range does not affect another. That recorded offsets are covered
  by held transactions needs no condition.
- A late state lowers consensus offsets (`Witnesses.ConsensusMayDrop`), exactly when it moves a peer back
  over the consensus offset and just `consensus_nodes` peers had been there
  (`Theorems.ConsensusDropsExactly`). Committed offsets never go down.
- Nodes agree per range (`Theorems.RangeAgreement`), not on the whole log (`Witnesses.LogsMayDiffer`).
  Whole logs are equal if and only if the committed offsets are and the epochs of both nodes put any two
  identifiers in the same order (`Theorems.WholeLogAgreement`). Within an epoch the order in which a hash
  map yields increments does not reach the log, but it does reach the hash (`Commits.HashSeesOrder`).
- `full_interval_for_range` accepts the last range by its guard and then overflows
  (`RangeKey.FullIntervalExact`); docs/keys-range.md lists that range as usable. The model follows the code.
- `update_self_offsets` reports every range whose bucket was scanned, although its comment speaks of
  changed offsets only. The model follows the code.

## Model

| member | source | states |
|---|---|---|
| RangeKey.CodecBijection | common/src/range_key.rs:141-169 | packing and unpacking a range and an offset are inverse on exactly the identifiers the decoder accepts, and packing stays within 64 bits |
| RangeKey.CodecOrder | common/src/range_key.rs:161-169 | identifiers are ordered as (range, offset) pairs lexicographically |
| RangeKey.FullIntervalExact | common/src/range_key.rs:127-139 | the whole-blob interval is defined exactly below the last range, contains exactly the identifiers of its range, and has 2^30 of them |
| RangeKey.BlobsAdjacent | common/src/range_key.rs:127-139 | consecutive blobs touch |
| RangeKey.IdsCountIsLength | common/src/range_key.rs:96-102 | the count is the number of identifiers of the interval, and its overflow panic is hit by the interval of all 64-bit words only |
| RangeKey.IdIterator.Next | common/src/range_key.rs:112-123 | the iterator yields the remaining identifiers one by one, in order, and then nothing |
| Sorting.SortedUnique | maroon/src/linearizer.rs:21 | two sorted arrangements of the same elements are equal, so the sorting algorithm is irrelevant |
| Epochs.NewEpoch | maroon/src/epoch.rs:14-31 | the epoch has the given increments and the digest of: the previous digest, if any, then per increment its left and its right border, eight bytes each, least significant first |
| Epochs.LayoutUnique | maroon/src/epoch.rs:16-26 | this layout leaves no choice of the hashed bytes |
| Epochs.EncodeInjective | maroon/src/epoch.rs:22-25 | the fixed-width little-endian encoding of increments is injective |
| Epochs.ChainBinding | maroon/src/epoch.rs:13-31 | chains of one length with one last hash are equal, or two inputs with the same digest exist |
| Linearizer.LogLinearizer.NewEpoch | maroon/src/linearizer.rs:20-32 | the nested loops append the expansion of the sorted increments; when these do not overlap the log goes on with the ascending enumeration of their union, of the sum of their counts |
| Linearizer.AppendedCanonical | maroon/src/linearizer.rs:20-32 | for increments that do not overlap, in any order, the old log stays in front and the strictly ascending enumeration of their union follows, as long as the sum of their counts |
| Linearizer.AppendedOrderIndependent | maroon/src/linearizer.rs:20-32 | two such lists of increments give the same log iff they cover the same identifiers |
| Indexing.TxsToRangeTxMap | maroon/src/app/app.rs:449-462 | each bucket is the subsequence of its range, and the keys are the ranges that occur |
| Indexing.BucketingConserves | maroon/src/app/app.rs:449-462 | the buckets together are a permutation of the batch |
| Indexing.StoredMeans | maroon/src/app/app.rs:315-320 | after inserting a batch each identifier of it maps to the last of its transactions, as received, and every other one to what it did |
| Indexing.IngestStores | maroon/src/app/app.rs:306-320 | the same for the batch visited by buckets in any hash-map order: bucketing does not change what is stored |
| Indexing.IngestRescans | maroon/src/app/app.rs:322-347 | each range of the batch is scanned from its recorded offset, or from 0 if it has begun unrecorded, over the store its bucket leaves, and the offset where the scan stops is recorded; a range that has not begun is not recorded |
| Indexing.RescannedUnique | maroon/src/app/app.rs:322-347 | this leaves no choice of what is recorded |
| Indexing.RunEnd | maroon/src/app/app.rs:336-340 | the scan stops at the end of the run of held identifiers |
| Indexing.ScanExact | maroon/src/app/app.rs:336-343 | the scan finds the longest prefix iff the first range that is not full is the scanned one or has not begun |
| Indexing.FirstNotFull | maroon/src/app/app.rs:336-343 | such a range exists, since identifiers are bounded |
| Indexing.ScanLowersExactly | maroon/src/app/app.rs:331-343 | a rescan goes back behind the recorded offset iff the first range from there on that is not full is another one, has begun, and is not held that far |
| Indexing.IngestLowersExactly | maroon/src/app/app.rs:306-351 | a batch lowers the recorded offset of a range iff that holds for the store as the bucket of the range finds it |
| Indexing.IngestKeepsInv | maroon/src/app/app.rs:306-351 | a batch adds exactly its identifiers, keeps every recorded offset covered, and keeps every range exact and never lowers it whose blob does not run, full, into the next; each range by itself |
| Histories.IndexDetermined | maroon/src/app/app.rs:306-351 | where two indexes over the same stored identifiers are exact they agree, range by range |
| Histories.Confluence | maroon/src/app/app.rs:145-160 | order, batching, repetition and hash-map order of deliveries do not affect the stored identifiers, nor the recorded offset of any range that does not spill |
| Histories.SpillHistories | maroon/src/app/app.rs:306-351 | every store with a spill has a history that leaves the range recorded as full, and one by single transactions in which that is taken back |
| Histories.ExactHistories | maroon/src/app/app.rs:306-351 | every history of a store leaves the range exact, all leave the same offset, and none ever lowers it, each iff the range does not spill |
| Histories.ExactIffNoSpill | maroon/src/app/app.rs:306-351 | every history of a store leaves the whole index exact iff no range spills |
| Consensus.SelectConsensusMaximum | maroon/src/app/app.rs:419-432 | collecting, sorting and indexing yields the order statistic |
| Consensus.ConsensusMaximumExact | maroon/src/app/app.rs:417-432 | the result is v iff v occurs, n peers are at v or beyond and fewer than n are beyond; there is none iff fewer than n peers are known |
| Consensus.ConsensusMaximumMonotone | maroon/src/app/app.rs:417-432 | raising an entry or adding a peer never lowers the result |
| Consensus.ReportLowersExactly | maroon/src/app/app.rs:133-141 | a new report of one peer lowers the result iff that peer was at it or beyond, now is not, and just n peers were there |
| Delays.MaxByKey | maroon/src/app/app.rs:363-369 | some peer with the greatest offset is found, none iff there are no peers |
| Delays.MissingIntervals | maroon/src/app/app.rs:381-405 | the pointer scan yields the missing identifiers as ascending maximal runs |
| Delays.RunsExact | maroon/src/app/app.rs:381-405 | the runs cover exactly the missing identifiers between the borders |
| Delays.RunsUnique | maroon/src/app/app.rs:381-405 | there is only one such list of runs |
| Delays.SelfDelays | maroon/src/app/app.rs:355-415 | the result gathers, per peer, the runs of the lagging ranges assigned to it; per peer these are maximal, do not overlap and ascend within a range; asked are peers that are furthest in a lagging range, and one for each such range; together they ask for exactly what the node lacks, and for no identifier twice |
| Delays.RequestExact | maroon/src/app/app.rs:353-415 | an identifier is requested from a peer iff its range was assigned to it, it lies between the own and the reported offset, and it is not held |
| Delays.AskedExact | maroon/src/app/app.rs:355-415 | over all peers, an identifier is requested iff it is not held, lies beyond the own offset and some peer has reported it; it is then asked of one furthest peer only |
| Delays.NextNeededRequested | maroon/src/app/app.rs:371-405 | where the index of a lagging range is exact, its list is not empty and begins with the next identifier needed |
| Delays.PlanExists | maroon/src/app/app.rs:355-415 | the computation has an outcome in every state |
| Commits.CalculateEpochIncrements | maroon/src/app/app.rs:252-273 | exactly one increment per range that is due, in hash-map order, from the next offset to the consensus offset |
| Commits.CommittedAfter | maroon/src/app/app.rs:243-246 | a due range is committed up to its consensus offset and no other range changes, whatever the order |
| Commits.CommitLag | maroon/src/app/app.rs:257-265 | after a commit a range lags by one offset at most, and does so iff exactly one was outstanding; nothing committed is taken back |
| Commits.SingleTransactionSkipped | maroon/src/app/app.rs:263-265 | concrete states in which one outstanding transaction is not committed |
| Commits.IncrementsProper | maroon/src/app/app.rs:267-269 | every increment lies in one range and spans two identifiers or more, and no two overlap |
| Commits.ProjectCommit | maroon/src/app/app.rs:227-234 | a commit extends the log of a range by exactly its new offsets, in order |
| Commits.CommitKeepsInv | maroon/src/app/app.rs:227-249 | a commit keeps the log equal to the committed prefixes, replayable from the epochs, tiled by increments and hash-chained |
| Commits.LogExactlyOnce | maroon/src/app/app.rs:227-249 | such a log holds the committed identifiers and no others, none twice, each range ascending |
| Commits.HashSeesOrder | maroon/src/epoch.rs:22-25 | two hash-map orders of one set of increments give the same log, and the same hash only if they are equal or there is a collision |
| Logs.BeforeExact | maroon/src/linearizer.rs:20-32 | of two logged identifiers the smaller comes first iff it is in an epoch not later than one with the greater |
| Logs.LogsEqualExactly | maroon/src/linearizer.rs:20-32 | two correct ledgers have the same log iff they have committed the same and order any two identifiers alike by epoch |
| Serving.ServingExact | maroon/src/app/app.rs:161-187 | the scan ends iff all requested identifiers are held, and then with the requested transactions |
| Serving.AnswerIds | maroon/src/app/app.rs:169-179 | the answer lists the requested identifiers, in the order requested, and only those |
| Serving.AnswerServes | maroon/src/app/app.rs:169-187 | as many transactions as the counts of the intervals sum to; each identifier of an interval is answered at its place with the transaction stored under it |
| Nodes.ReceivedPointers | maroon/src/app/app.rs:145-160 | the node's own entry among the peer offsets always equals its index |
| Nodes.NeverAsksItself | maroon/src/app/app.rs:362-379 | a request is never addressed to the node itself |
| Nodes.CommittedInv | maroon/src/app/app.rs:227-249 | a commit keeps the invariant of a node |
| Effects.HeardEffect | maroon/src/app/app.rs:133-141 | a state moves exactly the sender's pointers to the offsets in it, and nothing else of the node |
| Effects.ReceivedEffect | maroon/src/app/app.rs:145-160 | a batch is stored as received, its ranges are rescanned, the own pointers move to what is recorded of them, and nothing else of the node changes |
| Effects.RecalculatedEffect | maroon/src/app/app.rs:115-121 | a tick gives each range with enough reports its order statistic, and changes nothing else |
| Effects.CommittedEffect | maroon/src/app/app.rs:227-249 | a commit adds exactly one epoch, also when nothing is due; it has one increment per due range, from the next to the consensus offset, hashed over the last hash; due ranges are committed up to consensus; the log goes on with exactly the due identifiers, strictly ascending over all ranges |
| Effects.EffectDetermines | maroon/src/app/app.rs:227-249 | so the committed offsets and the log after a commit are determined, whatever the order of the hash map |
| Application.App.HandleState | maroon/src/app/app.rs:133-141 | records exactly the offsets of the message for its sender, and changes no other pointer |
| Application.App.UpdateSelfOffsets | maroon/src/app/app.rs:304-351 | stores the batch as received and rescans its ranges, each over the store its bucket leaves; other ranges do not change; returns the new offsets of the scanned ranges |
| Application.App.HandleNewTransaction | maroon/src/app/app.rs:145-151 | stores the transaction as received and nothing else, and rescans its range and moves its own pointer |
| Application.App.HandleMissingTx | maroon/src/app/app.rs:152-160 | stores the batch as received and nothing else, rescans its ranges and moves their own pointers |
| Application.App.HandleRequestMissingTxs | maroon/src/app/app.rs:161-187 | sends exactly one message, to the requesting peer, with the stored transaction of each requested identifier at its place |
| Application.RecalculateOrder | maroon/src/app/app.rs:434-447 | the delay factor is the number of peers with smaller identifiers; the demand is that the own one is in the list |
| Application.App.HandleInboxMessage | maroon/src/app/app.rs:131-189 | every message has its effect and no other: requests and lists of nodes change nothing of the node, a request adds exactly one message, its answer, and every other message adds none; a list of nodes without the receiver is the panic that the demands exclude |
| Application.App.RecalculateConsensusOffsets | maroon/src/app/app.rs:115-121 | every range with enough reports gets its order statistic, the others keep their value |
| Application.App.AdvertiseOffsetsAndRequestMissing | maroon/src/app/app.rs:191-212 | recalculates, sends the own offsets and then one request to each peer that is asked, the requests asking for exactly what is lacking |
| Application.App.CommitEpochIfNeeded | maroon/src/app/app.rs:227-249 | adds one epoch, advances the committed offsets and extends the log as `Effects.CommittedEffect` says, and changes nothing else |
| Protocol.RecalculatedQuorum | maroon/src/app/app.rs:115-121 | a consensus offset computed from true reports is held by a quorum |
| Protocol.RequestHeld | maroon/src/app/app.rs:355-415 | what a plan requests from a peer, that peer holds |
| Protocol.StepKeepsInv | maroon/src/app/app.rs:93-112 | every event of every node keeps the system invariant and loses no transaction |
| Theorems.QuorumDurability | maroon/src/app/app.rs:227-249 | in every reachable state each identifier in a node's log is held by at least `consensus_nodes` distinct nodes |
| Theorems.ServingTerminates | maroon/src/app/app.rs:161-187 | in every reachable state every request on its way is served to its end, each requested identifier at its place with the stored transaction, and no node hangs |
| Theorems.ExactlyOnceLog | maroon/src/linearizer.rs:20-32 | in every reachable state a log is exactly-once, gap-free and ascending per range |
| Theorems.RangeAgreement | maroon/src/linearizer.rs:20-32 | restricted to a range, of any two logs one is a prefix of the other, even across runs |
| Theorems.WholeLogAgreement | maroon/src/linearizer.rs:20-32 | the whole logs of two nodes in reachable states are equal iff committed offsets are and the epochs order any two identifiers alike |
| Theorems.ReplayFromEpochs | maroon/src/app/app.rs:51-58 | committed offsets and log are recomputable from the epochs, and increments tile each committed prefix |
| Theorems.LastHashDeterminesLog | maroon/src/app/app.rs:230-234 | equally many epochs and the same last hash mean the same epochs, offsets and log, or a collision exists |
| Theorems.IndexIsRecomputation | maroon/src/app/app.rs:306-351 | what is recorded of a range is what a recomputation from the store gives, unless the blob of that range is full and the next has begun; prefix possession always holds |
| Theorems.PlansAreUseful | maroon/src/app/app.rs:355-415 | requests go to other nodes of the system and, for a range that does not spill, begin with the next identifier needed |
| Theorems.CommitTickLag | maroon/src/app/app.rs:227-273 | the exact lag of a range after a commit tick in a reachable state |
| Theorems.DeliveriesHandled | maroon/src/app/app.rs:131-189 | every delivery in a reachable state meets the handler's demands (no panic, overflow or endless scan), and what the handler does to the node and sends, each packet as often as it is sent, is the system's step |
| Theorems.TickHandled | maroon/src/app/app.rs:191-212 | what a tick does to the node and sends, each packet once and its requests in any order, is the system's step |
| Theorems.StepExact | maroon/src/app/app.rs:93-112 | every step from a reachable state has the effect and sends the packets said in `Effects`, on the acting node only, and takes nothing from the network |
| Theorems.CommitOrderInvisible | maroon/src/app/app.rs:227-249 | in every reachable state the hash-map order of a commit reaches neither log nor committed offsets |
| Theorems.TicksAvailable | maroon/src/app/app.rs:95-100 | every node can tick and commit in every reachable state |
| Theorems.TickDelivers | maroon/src/network/p2p.rs:197-222 | what a tick sends can be delivered to every other node and to each addressee |
| Theorems.TickRecalculates | maroon/src/app/app.rs:115-121 | after a tick each range with enough reports has the order statistic as its consensus offset, the others are unchanged |
| Theorems.RequestAnswered | maroon/src/network/p2p.rs:223-228 | a delivered request has an answer, and it can be delivered |
| Theorems.ConsensusDropsExactly | maroon/src/app/app.rs:115-160 | in every reachable state an event makes the next tick lower a consensus offset iff it moves a peer back over it and just `consensus_nodes` peers were there |
| Witnesses.ConsensusMayDrop | maroon/src/app/app.rs:133-141 | a run in which a late state lowers a consensus offset |
| Theorems.TransactionsKept | maroon/src/app/app.rs:315-317 | in each step each identifier that arrives at the acting node maps to the last transaction that arrived with it, as received, and every other one, and every other store, is as before |
| Theorems.RunInventsNothing | maroon/src/app/app.rs:131-189 | over any run every transaction stored or on its way is one that a gateway submitted, status included |
| Theorems.LogOnlySubmitted | maroon/src/app/app.rs:131-189 | every identifier in a log was submitted by a gateway earlier in the run |
| Theorems.CommittedNeverGoesBack | maroon/src/app/app.rs:227-249 | over any run epochs and log only grow at the end and no committed offset is lowered |
| Theorems.IndexNeverGoesBack | maroon/src/app/app.rs:306-351 | over any run the recorded offset of a range that does not spill in the end has never been lowered |
| Witnesses.IndexGoesBackExactly | maroon/src/app/app.rs:306-351 | no run that leads a node to a store has lowered the recorded offset of a range, iff the store does not spill in that range |
| Witnesses.LogsMayDiffer | maroon/src/linearizer.rs:20-32 | a run after which two nodes have committed the same and neither log is a prefix of the other |
| Progress.CatchUp | maroon/src/app/app.rs:152-187 | once the answer to a request is processed, the node holds the range up to the border its peer had advertised, and has it recorded unless that range spills, whatever happened in between |
| Progress.Convergence | maroon/src/app/app.rs:191-212 | after a round of every node, each one holds every range at least as far as the furthest was, and has it recorded, with any other traffic in between; only a spill of that range at one of the two nodes matters |
| Rounds.ConvergenceAvailable | maroon/src/app/app.rs:93-112 | every run can be continued so that every node gets its round, and then has converged |

## Left out

- libp2p swarm, gossip, noise, ping, dialing and meta exchange: input and output over libraries; only who receives what is modelled.
- Channels, timers, `loop_until_shutdown`: replaced by the free choice of the next action.
- `handle_request`: returns copies of two maps that are fields of the model.
- Capacity reservations (`Vec::with_capacity`, `reserve`) and memory limits.
- The internals of SHA-256, and the textual form of epochs.
- Gateway, parameters, `main`, serialization, logging, user interface and deployment files.
- The ring of first writers, leader election and the commit to etcd of the whitepaper: not implemented in the code.
- The last range beyond its first identifier: decoding rejects it, and so do the assumptions.
- Progress.Convergence: says nothing about a range that spills at the node whose advance is compared, since an index that has gone back advertises less than is held (Witnesses.IndexGoesBackExactly).

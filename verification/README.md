# nexinfer in Dafny

A model of the inference engine's state machines and transformations, with proofs of what they
are for. Each module follows one component of the repository.

- `Softmax`, `Transformer`, `NumpyBackend`, `Forward`, `Parity`: the numpy backend's cached and
  pipeline-sliced decoding equals the plain full-sequence, full-stack forward pass, which `Forward`
  states without masks and caches. Norms, projections, feed-forward, embedding and LM head are
  per-row functions of the model; the loops over layers and requests, the K/V concatenation, the
  causal mask, the softmax, the head grouping and the flatten/reshape between ranks are concrete.
- `Planner`: layers and heads over nodes.
- `KvCache` (the state machine over block ids), `DevicePool` (runs that stay on the device) and
  `PagedKVCache` (the class over arrays): block tables refine a flat table
  (request, layer, position) -> (k, v).
- `Admission` (the admission loop over a queue), `Ledger` (the scheduler as a state machine over
  whole runs), `Scheduler` (the class) and `Generation` (the token loop).
- `Cluster` (membership as atomic steps), `Coordinator` (the objects), `HealthTiming` (when a
  silent node is declared dead).
- `Framing`, `TcpChannel`, `WebRtc`: binary frames, keyed channels over a byte stream cut
  anywhere, chunk reassembly.
- `Sampling`, `RateLimiter`, `Skills`, `Metrics`, with `Order` for sorting and counting: nucleus
  sampling, limiter windows, skill expansion, histogram and quantile.
- `Arith`, `Sequences`, `Wrappers`: shared helpers.

An operation that updates state is a method proved against a function of the old state; the
properties are lemmas about those functions, for all inputs and all runs. Real numbers stand for
floats, the `-1e9` mask means "excluded", and every clock reading is a parameter.

Where the code does not do what it is for, the code is kept, an input shows it, and the exact
condition is proved:

- The device and host pools are both numbered from 0 (nexinfer/engine/kvcache.py:55-56) although
  line 57 counts ids globally, so two positions come to share a block
  (`KvCache.CollidingPoolsAlias`). Reads return the last write over all runs exactly when one pool
  is empty (`KvCache.SourceReadsBackIff`), and over every run that finds enough free blocks on the
  device whatever the pools (`DevicePool.RoomyReadsBack`). The number of the first host id is a
  parameter of the model, and `KvCache.RunRefines` holds for globally numbered pools; the code's
  value is 0.
- `spill_cold_blocks` frees an id that a table still names (`KvCache.SpillIsSoundOnlyWhenIdle`).
- `schedule` pops the queue's head, not the request it admitted, and overwrites a running entry
  with the same id (`Admission.UnfitHeadIsLost`, `Admission.ClashingEntryIsLost`); nothing is lost
  exactly under `Admission.ConservesIff`.
- `schedule` reads the free count once, so one call can admit more than is free
  (`Ledger.TwoOvercommit`); runs stay within the blocks exactly under `Ledger.StaysWithinIff`.
- The block ledger clamps for requests without a positive `max_tokens`
  (`Ledger.UnlimitedRequestClamps`, `Ledger.LedgerBalancesIff`), and a request that stops early
  leaves blocks in use for good (`Ledger.EarlyStopLeaks`, `Ledger.IdleUseIsPermanent`).
- A prompt whose length is a multiple of the hidden size is read as activations
  (`NumpyBackend.PromptEmbedded`); `Parity.DecodeMatchesPrefillIff` is exact about it.
- With more ranks than layers several ranks apply the LM head (`Planner.OneRankEndsTheStack`,
  `Parity.TooManyRanks`, `Parity.RingIsSingleNodeIff`).
- A heartbeat from an unregistered node blocks replanning
  (`Cluster.UnregisteredHeartbeatPinsPlan`), and under the tensor preference a planned node that
  leaves stays planned when the heads do not divide over the rest
  (`Cluster.FirstToLeaveStaysPlanned`); runs are safe exactly under `Cluster.RunKeepsInvIff`.
- Detection within 4/3 of the timeout needs a timeout of at least 0.06 seconds
  (`HealthTiming.FourThirdsIff`).
- Streaming without `max_tokens` need not end (`Generation.LoopEndsIff`).
- A limiter call with a negative cost makes room for more than the limit
  (`RateLimiter.NegativeCostRaisesTheLimit`); the bound of twice the limit holds exactly for
  nonnegative costs (`RateLimiter.TwiceTheLimitIff`).
- The receive buffer hands on one frame per message, so messages that span frames can leave a frame
  behind (`WebRtc.SpanningMessageStalls`, `WebRtc.AllArriveIff`).
- The comment in nexinfer/engine/sampling.py:52 says the first token that pushes the mass to
  top_p or more ends the nucleus; the comparison keeps a token that lands exactly on top_p, so it
  ends with the first token strictly above (`Sampling.KeptIsPrefix`).

## Model

| member | source | states |
|---|---|---|
| Parity.DecodeMatchesPrefillIff | nexinfer/backends/cpu_numpy.py:119-214 | on the rank that ends the stack, for every nonempty prompt p and every token list ts: a prefill of p and one decode per token returns at each call the logits row the prefill of p + ts has at that position and ends with the same per-layer K/V, if and only if the hidden size is 1, or it divides neither the number of all tokens nor, when the slice has a layer, that of the prompt's |
| Parity.DecodeIsForward | nexinfer/backends/cpu_numpy.py:164-214 | and then the logits of each decoded token are the LM head of the plain forward pass over all tokens at its position |
| Forward.LayerIsPlain | nexinfer/backends/cpu_numpy.py:229-275 | one layer from an empty cache: lane d of head h of row r is the mean of the values of exactly rows 0..r, weighted by the exponentials of the scores of their keys, with the key/value head h / (heads / kv_heads); what is cached are the rows' keys and values, head by head |
| Forward.HeadIsWeightedMean | nexinfer/backends/cpu_numpy.py:247-270 | one head of one row over any cache is that mean over exactly the columns 0..limit, the row's own included |
| Forward.StackIsForward | nexinfer/backends/cpu_numpy.py:145-152 | a stack from empty caches is the plain forward pass, layer after layer over the whole sequence, and every layer's cache holds the keys and values of what the layers below it computed |
| Forward.PrefillIsForward | nexinfer/backends/cpu_numpy.py:119-162 | a prefill on the rank that ends the stack returns for every row the LM head of the plain forward pass, and stores those caches |
| Forward.SliceIsForward | nexinfer/backends/cpu_numpy.py:145-162 | a prefill below the top returns the rows of its slice flattened, and stores its caches |
| Forward.PromptRows | nexinfer/backends/cpu_numpy.py:131-146 | a prompt whose length the hidden size does not divide is embedded token by token, ids outside the vocabulary as the nearest in it |
| Parity.TokensRead | nexinfer/backends/cpu_numpy.py:131-146 | a token array is read as its own rows unless it is taken for activations and the hidden size is not 1; then it is read as fewer rows |
| Parity.CacheLengths | nexinfer/backends/cpu_numpy.py:145-152 | every layer of a slice caches exactly one key and value per row |
| Parity.CachedDecoding | nexinfer/backends/cpu_numpy.py:145-162 | for any slice of layers, rows a in one prefill and rows b one at a time end with the outputs and the caches of one prefill over a + b |
| Parity.RingIsSingleNodeIff | nexinfer/distributed/worker.py:262-302 | for any nodes and number of layers: for every model and every input the final rank pushes the single-node logits of the last position and the ranks' K/V in rank order are the single-node K/V, if and only if there are no more ranks than layers, or one rank |
| Parity.TooManyRanks | nexinfer/distributed/worker.py:280-302 | with more ranks than layers, and more than one, there is a model and an input on which the ring pushes other logits: two ranks apply the LM head |
| Parity.RingOverChain | nexinfer/distributed/worker.py:262-302 | over any adjacent slices from the bottom to the top, only the last of which reaches it, the ring is the single node |
| Parity.DecodeRingIsSingleNode | nexinfer/backends/cpu_numpy.py:178-199 | with no more ranks than layers, or one rank: one activation row decoded on every rank over its own cache gives the single-node decode result; the ranks' new caches concatenate to the single node's |
| Parity.DecodeRingIsRankByRank | nexinfer/backends/cpu_numpy.py:183-199 | chaining `decode` calls along a chained plan is composing the ranks' layer stacks, with logits only at the last |
| Parity.SlicedDecoding | nexinfer/backends/cpu_numpy.py:183-199 | composing consecutive slices of layers over their caches is the whole stack over the concatenated caches |
| Parity.DecodeManyIsRowByRow | nexinfer/backends/cpu_numpy.py:183-214 | repeated single-token decodes of one request are row-by-row evaluation over its cache, for every hidden size |
| Parity.PlanIsChained | nexinfer/distributed/planner.py:55-74 | with no more ranks than layers the slices from rank i on are adjacent from its start to the top, and only the last reaches the top |
| Parity.HopPreservesRows | nexinfer/distributed/worker.py:297-302 | activations flattened by one rank are read back as the same rows by the next |
| Parity.LastIsSent | nexinfer/distributed/worker.py:275-302 | an intermediate rank pushes the last row of what it computed, flat; the final rank the logits of the last position, without the leading dimension when there were several |
| Parity.RingFrom | nexinfer/distributed/worker.py:262-302 | from any rank on, the ring computes the rest of the stack |
| Transformer.HeadIsCausal | nexinfer/backends/cpu_numpy.py:247-267 | appending later keys and values does not change the output of a row whose limit lies before them |
| Transformer.AttendIsCausal | nexinfer/backends/cpu_numpy.py:247-270 | the same for all heads of a row, with grouped key/value heads repeated |
| Transformer.LayerInChunks | nexinfer/backends/cpu_numpy.py:229-275 | one layer over rows a and then rows b on the extended cache is the layer over a + b |
| Transformer.StackInChunks | nexinfer/backends/cpu_numpy.py:148-151 | the same for any stack of layers on any caches |
| Transformer.StackSplits | nexinfer/backends/cpu_numpy.py:148-151 | a stack split in two passes the rows through and concatenates the caches |
| Transformer.RowByRowIsStack | nexinfer/backends/cpu_numpy.py:200-214 | evaluating rows one at a time over the cache equals evaluating them together |
| Transformer.ReshapeInvertsFlatten | nexinfer/backends/cpu_numpy.py:139-144 | `reshape(-1, hidden)` inverts `reshape(-1)` on rows of that width |
| Transformer.MixIgnoresZeroTail | nexinfer/backends/cpu_numpy.py:263-267 | weights that are zero contribute nothing, whatever values they meet |
| Transformer.KvHead | nexinfer/backends/cpu_numpy.py:254-258 | every attention head reads an existing key/value head |
| Softmax.SoftmaxIgnoresMaskedTail | nexinfer/backends/cpu_numpy.py:33-36 | excluded columns at the end get probability zero and leave the others' probabilities unchanged |
| Softmax.SoftmaxSumsToOne | nexinfer/backends/cpu_numpy.py:33-36 | the probabilities of any row with an included entry sum to exactly one |
| Softmax.SoftmaxIsExponentials | nexinfer/backends/cpu_numpy.py:33-36 | an entry's probability is its own exponential over the sum of those of the included entries: subtracting the maximum changes nothing |
| Softmax.MaxIsLargest | nexinfer/backends/cpu_numpy.py:33-36 | what is subtracted is an included entry, and no included one is larger |
| Softmax.PositiveIffIncluded | nexinfer/backends/cpu_numpy.py:33-36 | an entry has positive probability exactly when it is not excluded |
| Softmax.HigherScoreHigherProbability | nexinfer/backends/cpu_numpy.py:33-36 | a strictly higher score has a strictly higher probability |
| NumpyBackend.PromptEmbedded | nexinfer/backends/cpu_numpy.py:131-146 | a prompt is embedded row per token unless its length is a multiple of the hidden size; the number of rows is then the number of tokens only for hidden size 1 |
| NumpyBackend.BatchIsIndependent | nexinfer/backends/cpu_numpy.py:178-214 | in a batch with distinct ids each request gets the row and the cache it would get alone |
| NumpyBackend.BatchInOrder | nexinfer/backends/cpu_numpy.py:178-214 | a batch is served in order, each request on the caches left by those before it, also when an id comes twice |
| NumpyBackend.BatchOfOne | nexinfer/backends/cpu_numpy.py:183-199 | one request gets its row through the slice on its own cache, and its new cache |
| NumpyBackend.SliceHolds | nexinfer/backends/cpu_numpy.py:145-148 | the slice holds each layer of the range once, in order, and no other |
| NumpyBackend.PrefillShape | nexinfer/backends/cpu_numpy.py:119-162 | the dimensions of what a prefill returns |
| NumpyBackend.DecodedShape | nexinfer/backends/cpu_numpy.py:164-214 | and of what a decode returns, at the top and below it, for ids and for activation rows |
| NumpyBackend.FlatIsColumn | nexinfer/backends/cpu_numpy.py:200-214 | a flat array of ids is decoded like a column of them |
| NumpyBackend.Backend.constructor | nexinfer/backends/cpu_numpy.py:49-59 | an empty cache and no slice |
| NumpyBackend.Backend.OffloadLayers | nexinfer/backends/cpu_numpy.py:71-83 | the first range becomes the slice, cut so that it visits exactly the layers of that range that exist; no range changes nothing |
| NumpyBackend.Backend.RunSlice | nexinfer/backends/cpu_numpy.py:148-151 | the loop over the slice computes the layer stack and its caches |
| NumpyBackend.Backend.Prefill | nexinfer/backends/cpu_numpy.py:119-162 | the result and the request's stored K/V are those of the stack on the interpreted input; other requests keep theirs; a one-by-one token matrix keeps its extra dimension |
| NumpyBackend.Backend.RunRequests | nexinfer/backends/cpu_numpy.py:183-214 | the loop over the batch threads the caches request by request |
| NumpyBackend.Backend.Decode | nexinfer/backends/cpu_numpy.py:164-214 | the result, with the dimensions it has for ids and for activation rows, and every served request's new K/V; the longer of ids and entries is cut to the shorter |
| Planner.PlanPipeline | nexinfer/distributed/planner.py:55-74 | the loop builds the plan in which rank i gets the layers from Start(i) to Start(i + 1) |
| Planner.PlanTensor | nexinfer/distributed/planner.py:77-96 | the loop builds equal head slices, or raises when they do not divide evenly |
| Planner.Automatic | nexinfer/distributed/planner.py:99-108 | never reaches the error of the tensor planner; tensor mode exactly when all nodes advertise the same multiset of device kinds and the heads divide |
| Planner.AutomaticAssignsAll | nexinfer/distributed/planner.py:99-108 | in either mode rank i is node i of n; in pipeline mode every layer lies in exactly one node's slice, in tensor mode every head, and nothing else does |
| Planner.PipelineAssignsAll | nexinfer/distributed/planner.py:55-74 | the same for the pipeline plan |
| Planner.TensorAssignsAll | nexinfer/distributed/planner.py:77-96 | and for the tensor plan |
| Planner.SlicesCover | nexinfer/distributed/planner.py:55-74 | slices start at 0, end at the top, and their sizes differ by at most one, longer ones first |
| Planner.EveryLayerHasOneOwner | nexinfer/distributed/planner.py:55-74 | every layer is run by exactly one rank |
| Planner.OneRankEndsTheStack | nexinfer/distributed/planner.py:55-74 | only the last rank's slice ends at the top, exactly when there are no more ranks than layers |
| Planner.HeadsPartition | nexinfer/distributed/planner.py:77-96 | head slices are equally wide and every head belongs to exactly one rank |
| KvCache.SourceRunsRefineIff | nexinfer/engine/kvcache.py:54-163 | with both pools numbered from 0, as the source has them: every run of ensure, write and free refines the flat table if and only if one of the pools is empty |
| KvCache.SourceReadsBackIff | nexinfer/engine/kvcache.py:54-150 | and every covered position reads as its last write after every run exactly then |
| DevicePool.RoomyRunsRefine | nexinfer/engine/kvcache.py:54-163 | however the host blocks are numbered, also from 0: a run in which every ensure_sequence prefers the device and finds enough free blocks there refines the flat table and leaves the host tier empty |
| DevicePool.RoomyReadsBack | nexinfer/engine/kvcache.py:54-150 | and every covered position reads as its last write |
| DevicePool.StepOnDevice | nexinfer/engine/kvcache.py:71-163 | such a call does the same beside any host pool and id counter |
| KvCache.RunRefines | nexinfer/engine/kvcache.py:84-163 | every run from globally distinct ids keeps the invariant (ids split exactly among pools and storages, one slot per stored id, no sentinel) and refines the flat table; a write that raises changes nothing, one with negative layer or position indexes from the end |
| KvCache.StepRefines | nexinfer/engine/kvcache.py:84-163 | the same for one call from any state that satisfies the invariant |
| KvCache.ReadIsLastWrite | nexinfer/engine/kvcache.py:125-150 | after any run from globally distinct ids each covered position reads as its last write since the request was last freed, or as zeros |
| KvCache.InitialIsSound | nexinfer/engine/kvcache.py:54-57 | the constructor's state satisfies the invariant exactly when the host pool is empty or its ids start after the device ids |
| KvCache.CollidingPoolsAlias | nexinfer/engine/kvcache.py:54-82 | for any two nonempty pools numbered from 0, any positive block size and number of layers: after covering D + H blocks, writing the first position of the last block changes the first position of block D - 1 |
| KvCache.BothPoolsGiveZero | nexinfer/engine/kvcache.py:71-104 | because filling a layer takes id 0 last from the device pool and last again from the host pool |
| KvCache.EnsureRefines | nexinfer/engine/kvcache.py:84-105 | covering a request keeps the invariant, leaves every existing cell as it was and adds zeros up to the covered length |
| KvCache.WriteRefines | nexinfer/engine/kvcache.py:125-135 | a write changes exactly the key and value of one position of one layer of one request |
| KvCache.FreeRefines | nexinfer/engine/kvcache.py:152-163 | free removes exactly the request and returns exactly its blocks to the pools they came from, in table order |
| KvCache.AllocIsFresh | nexinfer/engine/kvcache.py:71-82 | allocation hands out an id nobody owns, and disturbs no other block |
| KvCache.PlaceKeepsView | nexinfer/engine/kvcache.py:97-104 | giving a sentinel slot its block keeps the invariant and is invisible |
| KvCache.FillLayerRefines | nexinfer/engine/kvcache.py:97-104 | filling a layer keeps the invariant, changes nothing visible, and leaves no sentinel from the slot it started at |
| KvCache.EnsureLayerRefines | nexinfer/engine/kvcache.py:94-104 | padding and filling one layer adds zero cells up to the covered length and changes no other cell |
| KvCache.PadView | nexinfer/engine/kvcache.py:95-96 | padding a layer's table appears as zero cells |
| KvCache.EnsureFromRefines | nexinfer/engine/kvcache.py:94-104 | the loop over the layers pads and fills each layer in turn |
| KvCache.ReleaseReturns | nexinfer/engine/kvcache.py:157-163 | the deletion loop appends each id to the pool of the storage that held it |
| KvCache.FlatRunIsLastWrite | nexinfer/engine/kvcache.py:125-135 | the flat table after a run holds the last accepted write since the request was last freed |
| KvCache.SpillKeepsView | nexinfer/engine/kvcache.py:177-189 | immediately after a spill everything still reads as before |
| KvCache.SpillMovesFirst | nexinfer/engine/kvcache.py:177-189 | exactly the first n blocks of the storage order, or all, change tier under their ids with their contents, and those ids are put back in the device pool |
| KvCache.SpillIsSoundOnlyWhenIdle | nexinfer/engine/kvcache.py:177-189 | a spill keeps the invariant exactly when it moves nothing; otherwise the next device allocation hands out a block that a table still names, which then reads as zeros |
| PagedKVCache.PagedKVCache.constructor | nexinfer/engine/kvcache.py:37-65 | the abstract state is the initial one; it is valid exactly when the two pools do not collide |
| PagedKVCache.PagedKVCache.AllocBlock | nexinfer/engine/kvcache.py:71-82 | pops the last id of the chosen pool, or counts up |
| PagedKVCache.PagedKVCache.EnsureSequence | nexinfer/engine/kvcache.py:84-105 | on real arrays, valid or not: the state becomes the specified one; a valid cache stays valid and its view becomes the covered flat table |
| PagedKVCache.PagedKVCache.EnsureLayer | nexinfer/engine/kvcache.py:94-104 | the two loops of one layer |
| PagedKVCache.PagedKVCache.UpdateBlock | nexinfer/engine/kvcache.py:134-135 | the two in-place stores change two lanes of one stored array and no other array |
| PagedKVCache.PagedKVCache.Lookup | nexinfer/engine/kvcache.py:128-133 | finds the block and offset of any layer and position, negative ones counted from the end; None exactly when the source raises |
| PagedKVCache.PagedKVCache.Write | nexinfer/engine/kvcache.py:125-135 | on any pools: false and no change exactly when the position or its block is not found; otherwise two lanes of that block change; on a valid cache it raises exactly for positions not covered and the view changes at that position only |
| PagedKVCache.PagedKVCache.Read | nexinfer/engine/kvcache.py:137-150 | on any pools: the keys and values of the positions from start to end, in order; None exactly when one of them raises or the range is empty |
| KvCache.ReadRefines | nexinfer/engine/kvcache.py:137-150 | on a valid cache a position can be read exactly when it is covered, and reads as the flat table has it |
| PagedKVCache.PagedKVCache.ReadOne | nexinfer/engine/kvcache.py:141-149 | one position of it |
| KvCache.StepKeepsBlocks | nexinfer/engine/kvcache.py:84-163 | on any pools every call keeps all stored blocks at their size |
| PagedKVCache.PagedKVCache.Free | nexinfer/engine/kvcache.py:152-163 | returns the request's blocks to the pools of their storages, on any cache; a valid one stays valid and its view loses exactly the request |
| PagedKVCache.PagedKVCache.SpillLoop | nexinfer/engine/kvcache.py:181-189 | the loop moves the first min(n, stored) blocks and counts them |
| PagedKVCache.PagedKVCache.SpillColdBlocks | nexinfer/engine/kvcache.py:177-189 | the arrays change tier under their ids, the count is returned, and a valid cache is valid afterwards exactly when it is zero |
| Ledger.StaysWithinIff | nexinfer/engine/scheduler.py:93-128 | given two requests that fit into all blocks one at a time and not together: no run of add, append, schedule, finish and preempt uses more blocks than there are, if and only if at most one request can run or at most one can be in the scheduler |
| Ledger.TwoOvercommit | nexinfer/engine/scheduler.py:95-104 | those two requests, added and scheduled once, use their sum |
| Ledger.StepStaysWithin | nexinfer/engine/scheduler.py:82-128 | with at most one place or at most one request in the scheduler every call stays within the blocks |
| Admission.OnePlaceStaysWithin | nexinfer/engine/scheduler.py:95-104 | one call charges no more than is free into at most one place, whatever the needs |
| Ledger.EarlyStopLeaks | nexinfer/engine/scheduler.py:89-113 | from any idle state of a run with positive max_tokens: a request that is added, admitted, generates g tokens and is finished leaves the blocks of max_tokens minus those of g in use; what is used is again what it was if and only if these are equal |
| Ledger.IdleUseIsPermanent | nexinfer/engine/scheduler.py:89-128 | and what is in use while nothing runs is never given back by any later calls |
| Ledger.LedgerBalancesIff | nexinfer/engine/scheduler.py:73-128 | for any max_tokens and any room to run: over every sequence of add, append, schedule, finish and preempt with requests that ask for that many, `_used_blocks` is at every point the sum of the admission charges minus the sum of the release credits and no release clamps, if and only if it is positive |
| Ledger.LedgerBalances | nexinfer/engine/scheduler.py:73-128 | the same for every sequence in which each request has a positive max_tokens of its own |
| Ledger.UnlimitedRequestClamps | nexinfer/engine/scheduler.py:89-113 | add, schedule, append, finish of one request without a positive max_tokens: the release clamps |
| Ledger.StepKeepsBacked | nexinfer/engine/scheduler.py:82-128 | every call keeps the used blocks at least the reservations of all running requests, and changes them by exactly its charges minus its credits |
| Ledger.ChargeCovers | nexinfer/engine/scheduler.py:95-104 | what the running requests reserve grows by at most what the admission loop charges, also when an entry with the same id is replaced |
| Ledger.ReleaseKeepsBacked | nexinfer/engine/scheduler.py:110-122 | a credit is covered by the leaving entry's own reservation, so the max(0, ...) does nothing |
| Ledger.LongestWaitsLongest | nexinfer/engine/scheduler.py:119-119 | the preempted entry is the first of those waiting longest |
| Ledger.FirstComeFirstServed | nexinfer/engine/scheduler.py:82-105 | over every run without preemption in which what is scheduled has ids of its own and fits: the requests in the order of their acceptance are those that entered the running set, in the order in which they did, and then those that wait |
| Ledger.SmoothStep | nexinfer/engine/scheduler.py:82-113 | the same for one call |
| Ledger.SmoothSchedule | nexinfer/engine/scheduler.py:93-105 | such a schedule call moves exactly the first min(waiting, free places) of the queue, in order |
| Ledger.NeedIsLeast | nexinfer/engine/scheduler.py:89-91 | a request is charged the least number of blocks that holds the tokens it has and its max_tokens |
| Ledger.CreditIsLeast | nexinfer/engine/scheduler.py:107-113 | and credited the least number that holds the tokens it has |
| Admission.ConservesIff | nexinfer/engine/scheduler.py:93-105 | one call of `schedule` loses and duplicates no request if and only if, among the places there is room for, no request that does not fit stands before one that does, and those that fit have ids of their own |
| Admission.UnfitHeadIsLost | nexinfer/engine/scheduler.py:96-101 | a request that does not fit ahead of one that does is lost, and the other one runs and stays queued |
| Admission.ClashingEntryIsLost | nexinfer/engine/scheduler.py:101-103 | a running entry is lost to a queued request with its id |
| Admission.ScheduleOvercommits | nexinfer/engine/scheduler.py:95-104 | two requests of different ids that each fit into the free blocks are both admitted in one call, whatever their sum |
| Admission.AdmittedIsAdmit | nexinfer/engine/scheduler.py:93-105 | when no ids clash the loop appends exactly the queued requests that fit, in order, and pops as many from the head |
| Admission.NothingReplaced | nexinfer/engine/scheduler.py:93-105 | as many entries more as were popped means that no entry was replaced |
| Admission.ScheduleTakesTheHead | nexinfer/engine/scheduler.py:93-105 | when also every waiting request fits, exactly the first min(waiting, free places) move |
| Admission.FullStaysFull | nexinfer/engine/scheduler.py:96-97 | leaving the loop at a full running set loses nothing later iterations would have done |
| Admission.AdmittedKeys | nexinfer/engine/scheduler.py:93-105 | the running dict keeps one entry per id, each from the running set or the queue |
| Admission.CreditWithinChargeIff | nexinfer/engine/scheduler.py:89-113 | the credit at release stays within the charge at admission, for all reachable token counts, exactly for requests with positive max_tokens |
| Admission.StopReasonIs | nexinfer/engine/scheduler.py:47-54 | the reason is length exactly at a positive max_tokens, otherwise stop exactly when the text is something, a nonempty stop sequence and something, and otherwise there is none |
| Admission.RunningRequest.ShouldStop | nexinfer/engine/scheduler.py:47-54 | the same for the object's ids and text |
| Admission.CeilIsLeast | nexinfer/engine/scheduler.py:89-91 | the block count is the least whose blocks hold the tokens |
| Admission.RunningRequest.constructor | nexinfer/engine/scheduler.py:29-38 | a waiting request with nothing generated |
| Admission.RunningRequest.Append | nexinfer/engine/scheduler.py:43-45 | appends one id and its text |
| Scheduler.Scheduler.constructor | nexinfer/engine/scheduler.py:60-76 | the empty scheduler of the state machine |
| Scheduler.Scheduler.Add | nexinfer/engine/scheduler.py:82-87 | refused exactly at capacity, and then nothing changes; otherwise a fresh waiting request comes to the end of the queue: exactly the add step |
| Scheduler.Scheduler.Schedule | nexinfer/engine/scheduler.py:93-105 | exactly the schedule step: the new queue, running set and used-block count, for any ids and needs; returns the running set |
| Scheduler.Scheduler.AdmitLoop | nexinfer/engine/scheduler.py:96-104 | the loop over the snapshot admits what the specification admits, leaves the rest of the queue as it was and adds exactly the needs of those admitted |
| Scheduler.Scheduler.ConsiderNext | nexinfer/engine/scheduler.py:97-104 | one pass below a full running set takes the loop one request further |
| Scheduler.Scheduler.Consider | nexinfer/engine/scheduler.py:99-104 | one iteration: pops the head, marks and enters the request and charges its need exactly when the need fits |
| Scheduler.Scheduler.Enter | nexinfer/engine/scheduler.py:103-104 | the dict assignment, and exactly the need is added |
| Scheduler.Scheduler.Release | nexinfer/engine/scheduler.py:110-112 | the entry goes, and exactly its need is subtracted, clamped at zero |
| Scheduler.Scheduler.Finish | nexinfer/engine/scheduler.py:107-113 | None and no change for an id not running; otherwise that entry, marked finished, leaves the running dict, the queue stays and its blocks are given back, clamped at zero: exactly the finish step |
| Scheduler.Scheduler.LongestWaiting | nexinfer/engine/scheduler.py:119-119 | the loop finds the first of the entries waiting longest |
| Scheduler.Scheduler.Preempt | nexinfer/engine/scheduler.py:115-128 | None for an empty running set; otherwise the entry waiting longest leaves it for the head of the queue, marked swapped, its ids and text dropped in recompute mode and kept otherwise, and its blocks are given back: exactly the preempt step |
| Scheduler.Scheduler.Evict | nexinfer/engine/scheduler.py:120-122 | the entry leaves the running dict and its blocks are given back |
| Scheduler.Scheduler.AppendIsStep | nexinfer/engine/scheduler.py:43-45 | a token appended to a known request below its limit is exactly the append step |
| Generation.LoopEndsIff | nexinfer/engine/generation.py:70-106 | the token loop ends for every model, stop text and caller exactly for positive max_tokens or without streaming |
| Generation.OneFinishAndItIsLast | nexinfer/engine/generation.py:70-108 | exactly one output has a finish reason and it is the last, with the reason that applies after it; each earlier one carries the next token, its text and the count so far, and nothing applied after it; a reported completion count is the number appended |
| Generation.StopsAtTheFirst | nexinfer/engine/generation.py:70-100 | without tool calls and aborts a stream ends with the first token after which the text holds a nonempty stop sequence or a positive max_tokens is reached, with length or stop accordingly; all tokens up to it are yielded, each with its text |
| Generation.CutAtTheCap | nexinfer/engine/generation.py:101-108 | without streaming a stream that nothing ends within 4096 tokens yields these and one empty output with length |
| Generation.NothingEnds | nexinfer/engine/generation.py:70-100 | a streaming request that nothing ends goes on for ever |
| Generation.ServedIs | nexinfer/engine/generation.py:50-108 | a served request waits at the end of the queue with its tokens, and a running entry with its id, and no other, is gone |
| Generation.TokensBounded | nexinfer/engine/generation.py:70-106 | at most max_tokens tokens are appended when it is positive, and at most the safety cap without streaming |
| Generation.StreamStep | nexinfer/engine/generation.py:70-106 | the outputs collected so far plus those to come stay the whole stream |
| Generation.GenerationEngine.Loop | nexinfer/engine/generation.py:70-106 | whenever the run ends: the loop terminates and yields the stream, and the request holds exactly the appended tokens, at most a positive max_tokens |
| Generation.GenerationEngine.Follow | nexinfer/engine/generation.py:70-106 | whether the run ends or not: what a caller who follows k iterations receives, and that it goes on exactly when none of them ends |
| Generation.ConsumedTokens | nexinfer/engine/generation.py:70-106 | until a run ends, also when it never does, each iteration yields the next token and no finish reason |
| Generation.ConsumedWhole | nexinfer/engine/generation.py:70-106 | a run that ends is received whole by following it far enough |
| Generation.GenerationEngine.OneToken | nexinfer/engine/generation.py:71-106 | one pass through the body yields one iteration's outputs and stops exactly when the iteration ends the stream |
| Generation.GenerationEngine.Serve | nexinfer/engine/generation.py:63-108 | after an accepted request: the stream, the finish step on the scheduler, and no block left for the request |
| Generation.GenerationEngine.GenerateStream | nexinfer/engine/generation.py:50-108 | whenever the run ends, on any pools: a refused request yields one error and changes nothing; an accepted one yields the stream, leaves no table for the request, leaves every other request's cells of a valid cache as they were, and stays in the waiting queue |
| Cluster.StepKeepsInv | nexinfer/distributed/coordinator.py:158-262 | a step keeps the safety invariant exactly when it is benign: a heartbeat comes from a registered node, and under the tensor preference a planned node leaves or dies only when the heads divide over the members left, or none are left |
| Cluster.ReplanForThoseLeft | nexinfer/distributed/coordinator.py:238-262 | when a node leaves or dies, the replan raises exactly when the preference is tensor and the heads do not divide over the members left |
| Cluster.LeaveStaysPlanned | nexinfer/distributed/coordinator.py:192-198 | then a planned node that leaves stays in the plan, without a heartbeat |
| Cluster.FirstToLeaveStaysPlanned | nexinfer/distributed/coordinator.py:158-262 | as in every group of workers over which the heads divide and over one less do not, such as four for four heads: they say hello, and whoever leaves first stays planned |
| Cluster.RunKeepsInvIff | nexinfer/distributed/coordinator.py:158-262 | for every preference and every interleaving of hello, heartbeat, leave and tick: planned nodes are heartbeating non-root nodes and heartbeating nodes are registered, seen and not dead at every point of the run, if and only if at every step heartbeats are registered and, under the tensor preference, the heads divide over the members a planned node leaves behind |
| Cluster.RegisteredRunsAreSafe | nexinfer/distributed/coordinator.py:158-262 | outside the tensor preference, if and only if every heartbeat comes from a node registered at that point |
| Cluster.NoDeadNodePlanned | nexinfer/distributed/coordinator.py:212-221 | under the invariant a declared-dead node is in neither the plan nor the heartbeat dict |
| Cluster.ReplanOutcome | nexinfer/distributed/coordinator.py:238-262 | replanning raises exactly for an unregistered member or a tensor split that does not divide; otherwise the plan is the alive non-root members, None iff there are none |
| Cluster.ReplanAssignsAll | nexinfer/distributed/coordinator.py:238-262 | for every preference: the plan assigned is over the registered specs of the alive non-root members in heartbeat order, with every layer, or every head, in exactly one node's slice |
| Cluster.MembersJoin | nexinfer/distributed/coordinator.py:238-244 | the members come in heartbeat order |
| Cluster.MembersWithout | nexinfer/distributed/coordinator.py:238-244 | without one node's heartbeat they are the others, in the same order |
| Cluster.DepartureIsNoDeath | nexinfer/distributed/coordinator.py:192-198 | a node that leaves is not declared dead, by any later run in which it is not heard of |
| Cluster.RegisteredAsLastHello | nexinfer/distributed/coordinator.py:158-198 | after any run a node is registered with the spec of its last hello, unless it left since |
| Cluster.BeatsIff | nexinfer/distributed/coordinator.py:158-221 | a node heartbeats after a step if and only if it was just heard of, or did before and neither left nor was declared dead |
| Cluster.ReplanLeavesPlanCurrent | nexinfer/distributed/coordinator.py:238-262 | outside the tensor preference every hello, leave and death leaves the plan exactly current, without the node that went |
| Cluster.UnregisteredHeartbeatPinsPlan | nexinfer/distributed/coordinator.py:187-191 | one heartbeat from an unregistered node makes the next replan raise, so a node that then dies stays planned |
| Cluster.AtMostOneDeathPerSilence | nexinfer/distributed/health.py:81-103 | the death callback fires at most once between two records or departures of a node |
| Coordinator.HealthMonitor.Record | nexinfer/distributed/health.py:62-65 | the node is seen now and no longer dead |
| Coordinator.HealthMonitor.Forget | nexinfer/distributed/health.py:67-69 | nothing is known of the node |
| Coordinator.HealthMonitor.CheckNode | nexinfer/distributed/health.py:81-103 | declares the node exactly when it is known, undeclared and older than the timeout |
| Coordinator.Coordinator.constructor | nexinfer/distributed/coordinator.py:40-103 | the registered root alone; the invariant holds |
| Coordinator.Coordinator.AliveMembers | nexinfer/distributed/coordinator.py:238-244 | the alive non-root members in heartbeat order |
| Coordinator.Coordinator.DoReplan | nexinfer/distributed/coordinator.py:238-262 | assigns the new plan, which gives every layer or head to exactly one node, or raises with nothing assigned |
| Coordinator.Coordinator.HandleHello | nexinfer/distributed/coordinator.py:158-186 | one hello step: the node is registered anew, heartbeats, is seen now and not dead; keeps the invariant |
| Coordinator.Coordinator.HandleHeartbeat | nexinfer/distributed/coordinator.py:187-191 | one heartbeat step: the node heartbeats, is seen now and not dead, and neither the registry nor the plan changes; keeps the invariant exactly for a registered node |
| Coordinator.Coordinator.HandleLeave | nexinfer/distributed/coordinator.py:192-198 | one leave step: the node is neither registered nor heartbeating, and nothing is known of it; keeps the invariant, and unplans the node, exactly when the step is benign: always outside the tensor preference |
| Coordinator.Coordinator.TickNode | nexinfer/distributed/health.py:81-103 | one node of a tick with its callback: declared dead and no longer heartbeating exactly when it is known, undeclared and silent for longer than the timeout, else nothing changes; keeps the invariant exactly when the step is benign, always outside the tensor preference, and then a dead node is not planned |
| HealthTiming.SilentNodeFate | nexinfer/distributed/health.py:81-103 | a silent node is dead after a run exactly when some check found it silent for longer than the timeout, whatever else happened |
| HealthTiming.DetectedWithinFourThirds | nexinfer/distributed/health.py:47-103 | with ticks at the monitor's own interval a silent node is declared after the timeout and within 4/3 of it, for timeouts of at least 0.06 |
| HealthTiming.FourThirdsIff | nexinfer/distributed/health.py:47-54 | every detecting tick comes within 4/3 of the timeout exactly for timeouts of at least 0.06 |
| HealthTiming.DetectionWindow | nexinfer/distributed/health.py:81-111 | with on-time ticks of any interval a silent node is declared in (timeout, timeout + interval] after its last record, and never before |
| HealthTiming.IntervalIsAThird | nexinfer/distributed/health.py:51-54 | the check interval keeps detection within 4/3 of the timeout exactly for timeouts of at least 0.06 |
| HealthTiming.IntervalBounds | nexinfer/distributed/health.py:47-54 | the interval is a third of the timeout, but at least 0.02 and at most 5 seconds |
| HealthTiming.PromptNodeSurvives | nexinfer/distributed/health.py:62-103 | a node whose gaps never exceed the timeout is never declared dead |
| Framing.ReadInvertsPack | nexinfer/transports/base.py:34-65 | reading a packed frame from the head of any stream returns that frame and leaves the rest |
| Framing.ReadsExactlyPacked | nexinfer/transports/base.py:34-65 | for frames with dimensions or contents: a frame is read off a stream if and only if the stream begins with exactly that frame packed |
| Framing.Layout | nexinfer/transports/base.py:37-48 | the bytes of a packed frame, field by field, from the size and the magic number on |
| Framing.FitsIff | nexinfer/transports/base.py:37-48 | the widths: 16 bits for the name length, 32 for the other lengths and the whole, 64 for a dimension |
| Framing.DigitAt | nexinfer/transports/base.py:37-48 | integers are little-endian |
| Framing.ReadAllInvertsPackAll | nexinfer/transports/base.py:34-65 | any frames followed by a proper prefix of another: exactly those frames are read, in order, and exactly the prefix is left |
| Framing.ProperPrefixIncomplete | nexinfer/transports/base.py:51-55 | no proper prefix of a frame is read as a frame |
| Framing.FromLEInvertsLE | nexinfer/transports/base.py:37-48 | little-endian decoding inverts encoding within the field width |
| Framing.UnDimsInvertsDims | nexinfer/transports/base.py:60-61 | the shape survives |
| Framing.PackFrame | nexinfer/transports/base.py:34-49 | raises exactly when a field does not fit its width; otherwise the packed frame |
| Framing.PackDims | nexinfer/transports/base.py:44-46 | raises exactly when a dimension does not fit |
| Framing.StreamReader.ReadExactly | nexinfer/transports/base.py:52-54 | the next n bytes, or an incomplete read that drains the stream |
| Framing.StreamReader.NextFrame | nexinfer/transports/base.py:51-65 | the imperative reader computes the specified parse and leaves the cursor after the frame |
| TcpChannel.NothingLostOrReordered | nexinfer/transports/tcp_transport.py:41-154 | in both directions of a connection, on a live key, frames received, queued and still in the byte stream are exactly the frames sent, in order; the hello is never delivered, and before it is read nothing is |
| TcpChannel.EverythingArrives | nexinfer/transports/tcp_transport.py:41-154 | from every reachable state, once the bytes in flight are delivered and read, both readers receive exactly the frames handed to send, in order |
| TcpChannel.SentAreOffered | nexinfer/transports/tcp_transport.py:116-142 | the frames sent are those handed to send that fit, on the accepting side once it has read the hello |
| TcpChannel.KeyOf | nexinfer/transports/tcp_transport.py:46-56 | the key is what follows "HELLO:", otherwise the peer name |
| TcpChannel.StepKeepsInv | nexinfer/transports/tcp_transport.py:41-154 | every send, delivery of any number of bytes, read and receive keeps the channel invariant |
| TcpChannel.RunKeepsInv | nexinfer/transports/tcp_transport.py:41-154 | and so does every interleaving of moves of both directions from an opened connection |
| TcpChannel.KeysAgree | nexinfer/transports/tcp_transport.py:52-62 | both sides use the same key |
| TcpChannel.ReadIsNextFrame | nexinfer/transports/tcp_transport.py:66-72 | what is read off the stream is the first frame in transit, or nothing yet |
| TcpChannel.Receiver.Pump | nexinfer/transports/tcp_transport.py:66-76 | the read loop queues every whole frame and keeps the partial one; a frame that does not parse ends it, and an ended loop reads nothing more |
| TcpChannel.Receiver.Recv | nexinfer/transports/tcp_transport.py:144-154 | the oldest queued frame |
| WebRtc.FramesArrive | nexinfer/transports/webrtc_transport.py:98-121 | frames cut into nonempty chunks in any way, none spanning two frames, arrive exactly once and in order and leave the buffer empty |
| WebRtc.FrameInTransit | nexinfer/transports/webrtc_transport.py:98-121 | until the last chunk of a frame nothing is handed on and the buffer is the proper prefix received so far |
| WebRtc.SentFramesArrive | nexinfer/transports/webrtc_transport.py:98-130 | what `send` cuts, `_on_msg` reassembles: every payload once, in order |
| WebRtc.AllArriveIff | nexinfer/transports/webrtc_transport.py:98-121 | however the bytes of any frames are cut into messages, spanning frames or not: every payload is handed on once, in order, and the buffer ends empty, if and only if after each message the frames not complete by then are no more than the messages to come |
| WebRtc.SpanningMessageStalls | nexinfer/transports/webrtc_transport.py:101-121 | a second whole frame in one message stays in the buffer until another message comes |
| WebRtc.Reassembler.Receive | nexinfer/transports/webrtc_transport.py:101-121 | one message on the byte buffer |
| WebRtc.Send | nexinfer/transports/webrtc_transport.py:123-130 | the frame goes out whole and in order, in nonempty messages of at most 65536 bytes, all but the last of exactly that size |
| Sampling.NucleusOfTopK | nexinfer/engine/sampling.py:39-59 | for every top_p below 1: the support is the shortest prefix of the descending order with mass above top_p, never empty, at most top_p without its last member, inside the top-k survivors, renormalised to 1 in the original proportions |
| Sampling.NucleusPrefix | nexinfer/engine/sampling.py:48-59 | the same prefix for any probability vector |
| Sampling.HighestLogitFirst | nexinfer/engine/sampling.py:39-45 | the first token of the order, always kept, has a highest logit |
| Sampling.TopKSurvivors | nexinfer/engine/sampling.py:40-42 | at least k entries survive, fewer than k lie strictly above the threshold, and exactly the entries from the threshold up survive |
| Sampling.SurvivesIff | nexinfer/engine/sampling.py:39-42 | for every k: a token keeps its logit if and only if k is not positive or fewer than k tokens have a higher one |
| Sampling.TopKIncluded | nexinfer/engine/sampling.py:40-42 | something always survives, so the softmax is defined |
| Sampling.KeptIsPrefix | nexinfer/engine/sampling.py:49-54 | the mask with its boundary token is a prefix that just exceeds top_p |
| Sampling.KeepMask | nexinfer/engine/sampling.py:51-54 | the cumulative loop and the boundary store compute that mask |
| Sampling.Scatter | nexinfer/engine/sampling.py:55-57 | the indexed store copies exactly the allowed probabilities |
| Sampling.Renormalise | nexinfer/engine/sampling.py:58-58 | every entry is divided by the old sum, in place |
| Sampling.FilterTopP | nexinfer/engine/sampling.py:48-59 | the branch as a whole computes the nucleus distribution |
| Order.SortIsAscending | nexinfer/engine/sampling.py:41-41 | the sorted copy is ascending |
| Order.SortKeepsCount | nexinfer/engine/sampling.py:41-41 | and a permutation: every property holds of as many entries as before |
| Order.RankCounts | nexinfer/services/metrics.py:103-105 | how many entries lie at or below, below, at or above, and above the entry of a rank |
| RateLimiter.WindowsHoldTheLimit | nexinfer/services/security.py:96-108 | for any costs each limiter window admits at most the limit in sum, windows start at least one window apart, and the bucket is the last window |
| RateLimiter.AdmittedIff | nexinfer/services/security.py:96-108 | a call is admitted if and only if its cost still fits into the window the clock reading falls in |
| RateLimiter.UnlimitedAdmitsAll | nexinfer/services/security.py:96-98 | with a limit of 0 every call is admitted and no bucket is kept |
| RateLimiter.ClientsAreIndependent | nexinfer/services/security.py:96-108 | the calls of other clients change neither a client's bucket nor its answers |
| RateLimiter.TwiceTheLimit | nexinfer/services/security.py:96-108 | with nonnegative costs and a nondecreasing clock any half-open interval of one window length admits at most twice the limit per client |
| RateLimiter.TwiceTheLimitIsReached | nexinfer/services/security.py:96-108 | and that bound is reached, for every limit |
| RateLimiter.NegativeCostRaisesTheLimit | nexinfer/services/security.py:96-108 | for every limit and window: after a negative cost an interval of one window length admits more than twice the limit, by that cost |
| RateLimiter.TwiceTheLimitIff | nexinfer/services/security.py:96-108 | for every limit and window: all runs of calls that cost at least a given number stay within twice the limit, if and only if that number is not negative |
| RateLimiter.WindowsCarryAllAdmitted | nexinfer/services/security.py:96-108 | for any costs grouping the admissions into windows loses and adds nothing |
| RateLimiter.CleanupIsInvisibleIff | nexinfer/services/security.py:117-129 | cleanup changes no later answer, for any buckets and calls, exactly when max_age is at least one window |
| RateLimiter.Limiter.constructor | nexinfer/services/security.py:85-90 | a negative limit counts as 0; no buckets |
| RateLimiter.Limiter.Allow | nexinfer/services/security.py:96-108 | the answer and the new buckets, for any cost |
| RateLimiter.Limiter.CleanupOld | nexinfer/services/security.py:117-129 | drops exactly the buckets older than max_age and counts them |
| Skills.ExpansionIsReachability | nexinfer/services/skills.py:119-139 | on every skill graph, cycles included, the walk visits exactly the skills reachable through resolvable refs and gathers exactly their tools, each once |
| Skills.WalkRefsOk | nexinfer/services/skills.py:127-132 | what one walk adds is reachable, closed under refs up to what is seen, and accounts for exactly the tools added |
| Skills.ClosedHoldsReachable | nexinfer/services/skills.py:127-132 | a set closed under resolvable refs contains everything reachable from it |
| Skills.AddNewAddsAll | nexinfer/services/skills.py:133-135 | adding tools adds each missing one once |
| Skills.AddNewInOrder | nexinfer/services/skills.py:133-135 | those present stay in front, and the missing ones follow in the order of their first occurrence |
| Skills.RefsInOrder | nexinfer/services/skills.py:127-132 | refs are expanded in order |
| Skills.RefsBeforeOwn | nexinfer/services/skills.py:127-139 | the tools of everything reachable but the skill itself come first, then its own missing ones in order |
| Skills.Walker.WalkSkill | nexinfer/services/skills.py:127-135 | the recursion on the shared set and list terminates (fewer unseen skills each time) and computes the specified walk |
| Skills.Walker.AddTools | nexinfer/services/skills.py:133-135 | the tool loop |
| Skills.SkillsRegistry.Save | nexinfer/services/skills.py:111-117 | the skill is stored under its own name |
| Skills.SkillsRegistry.ResolveTools | nexinfer/services/skills.py:119-139 | a registered nonempty name means the skill of that name, an absent, empty or unknown one means `default`; the tools are exactly those reachable from it, without duplicates, those of its refs before its own |
| Metrics.MetricsCollector.constructor | nexinfer/services/metrics.py:28-47 | zero buckets, no samples |
| Metrics.MetricsCollector.RecordLatency | nexinfer/services/metrics.py:60-82 | after any history bucket i counts the samples at most bound i and the last bucket all; the kept samples are a suffix of at most 100000 and at least the last 50000 |
| Metrics.MetricsCollector.FirstBucket | nexinfer/services/metrics.py:74-78 | the first bound the sample does not exceed |
| Metrics.MetricsCollector.LatencyQuantile | nexinfer/services/metrics.py:99-105 | 0 without samples; else at least ceil(q * n) samples are at most the result and fewer are below it |
| Metrics.MetricsCollector.NearestRank | nexinfer/services/metrics.py:104-104 | the clamped rank reaches ceil(q * n), kept within 1..n |
| Metrics.NeededForProperQuantile | nexinfer/services/metrics.py:104-104 | for 0 < q <= 1 the clamps do nothing |
| Metrics.QuantilesAreMonotone | nexinfer/services/metrics.py:99-105 | over the same samples a higher quantile is never smaller, and the value of a quantile is unique |
| Metrics.BucketsAreCumulative | nexinfer/services/metrics.py:74-80 | the counters never decrease from one bucket to the next |

## Left out

- Floating point: rounding, `astype(float16)` and the 1e-6 floor of the temperature; arithmetic is exact.
- Parity.RingIsSingleNodeIff: one request through the ranks by function composition; the channel between two ranks is `TcpChannel`, and retries, timeouts and failed prefills in the worker loop are not part of it.
- Parity.DecodeRingIsSingleNode: no code of the repository drives `decode` rank by rank; the lemma is about the backend's calls chained directly, for the plans whose prefill ring is right.
- `Worker.generate`: after its first step it embeds the new token without context and sends rows through the root slice again, so single-node parity does not hold for it.
- NumpyBackend.Backend.Decode: entries are ids, rows of one id or activation rows; a served request without a cache and an empty batch raise in numpy, and rows of several ids are not modelled.
- NumpyBackend.Backend.Prefill: the empty input and token matrices other than one-by-one are not modelled; numpy raises on them, or with at most one layer broadcasts them to another shape.
- Weight loading, device detection and the concrete norm, SiLU and projection formulas.
- PagedKVCache.PagedKVCache.Read: which exception a call raises is not modelled.
- PagedKVCache.PagedKVCache.SpillColdBlocks: the storage dict's iteration order is a parameter.
- Locks and threads: every method is atomic.
- Scheduler.Scheduler.Preempt: the request id argument is ignored by the source and absent here; the source reads the clock anew for each entry it compares, the model compares the waiting times at one reading.
- Scheduler.Scheduler.Schedule: `max_new_blocks` is unused by the source and absent; the running dict is a list in insertion order.
- Generation.GenerationEngine.GenerateStream: the yields are collected; a backend exception and what happens to the request when a caller closes the generator early are not modelled; runs that do not end are `Generation.GenerationEngine.Follow`.
- Generation: the backend, sampler, tokenizer, tool-call extraction and abort flag are functions of the number of tokens generated so far; metrics calls are omitted.
- Coordinator.Coordinator.HandleHello: plan delivery, RPC replies, mDNS and the messages of a push that mixes two plans; only `self.plan` is modelled.
- Heartbeat times stored by the coordinator, which nothing reads, and the planner's notes and model-hash warnings.
- Reconnect backoff, the control-channel sockets and the tick loop's sleeping.
- Framing.PackFrame: names and dtypes are byte strings; which of them decode as UTF-8 and as ASCII and which shapes numpy accepts is the `Codec` parameter.
- Framing.ReadsExactlyPacked: a frame with neither dimensions nor contents is not part of the equivalence; its dtype string can be cut short and still be read, unless numpy refuses it.
- TcpChannel.NothingLostOrReordered: one connection at a time; reconnection, closing and the receive timeout are not modelled.
- WebRtc.FramesArrive: signalling and the payload decoder, which does not invert `pack`, are not part of this model.
- gRPC and RDMA transports.
- Sampling.NucleusOfTopK: any descending order stands for the unspecified ties of argsort; with top_p of 1 or more the branch is skipped. Greedy choice, temperature, repetition penalty and the random draw are not modelled.
- RateLimiter.TwiceTheLimit: nonnegative costs, which `RateLimiter.TwiceTheLimitIff` shows to be needed. `clear` is not modelled.
- Skills.SkillsRegistry.ResolveTools: description and hint texts, YAML loading and files.
- Metrics.MetricsCollector.RecordLatency: per-subsystem sums, request and token counters and the text exposition are not modelled.
- HTTP server, CLI, configuration, MCP, tool registry, memory store, input policy, chat templates and the other backends.

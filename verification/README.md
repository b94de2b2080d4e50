# Edgernetes verification

A Dafny model of the parts of Edgernetes that carry its guarantees, with proofs. Edgernetes is
a control plane that keeps node, model and replica records in a log-backed store and polls edge
agents; the agents run inference worker pools, cache an endpoint table and forward requests to
each other.

| file | what it models |
|---|---|
| `Types.dfy` | shared values and sequence facts |
| `Balancer.dfy`, `Fairness.dfy` | the weighted round-robin balancer: termination from any state, proportionality, fairness |
| `Wal.dfy`, `JsonCodec.dfy`, `DocCodec.dfy` | the store and its newline-framed log, down to bytes: replay, restarts, failed appends, crashes; the JSON record encoding; a codec for control-plane records |
| `Records.dfy`, `Registry.dfy`, `Models.dfy`, `Queries.dfy` | records, keys, registry and replica operations, name uniqueness, joins |
| `Heartbeat.dfy`, `Sweeps.dfy` | the sweep and the endpoint table: effect, frame, exact contents, offline timing |
| `Agents.dfy` | the agent's cache and routing |
| `Cluster.dfy`, `Lifecycle.dfy`, `Routing.dfy` | the whole system as interleaved steps; how node records live; where requests go |
| `WorkerPool.dfy` | inference worker pools as interleaved steps |
| `Upload.dfy`, `Download.dfy` | model transfer: validate-then-commit upload, resumable download |

`dafny verify dfyconfig.toml` checks everything.

## What is assumed

- Weights are reals and a reported TOPS is a finite float64, `mantissa * 2^exponent`. Times are
  integers (nanoseconds since Go's zero time); sizes, ports and counters are unbounded integers.
  Float64 rounding, infinities, NaN and 32-bit truncation are outside the model.
- The store's record encoding is a parameter with the properties of `Wal.ValidCodec`; the module
  `JsonCodec` proves that the encoding the store writes has them. Keys are text (valid UTF-8).
- A stored value is the record its JSON decodes to, or `Corrupt`. That a codec for such values
  exists at all is shown by `DocCodec.DocCodecIsValid`: the store's own line around the value's
  bytes, the bytes in a form of this model's own rather than the source's JSON. SHA-256 is a
  parameter.
- The data directory and the log file can be opened; appends may fail in any way. The model directory
  is given as a clean absolute path.
  Removing an upload's temporary file succeeds.
- Each locked store operation is one step, and so is each registry call (listing nodes, reading or
  writing one record), although the source checks and writes under separate locks. What makes
  several such calls - a sweep, an update request - is several steps. A fresh UUID is one not used
  before.
- A scaled inference request has at most 12 features: a longer one makes
  `internal/agent/runway/runway.go:33-44` index past its tables, which ends the agent.
- The remote ends (agents answering polls, the ONNX session, the clock) and what the file system and
  the stream do in each append, read and send are inputs; every theorem holds for all of them.

## Where the code does not keep a promise

Each is modelled as coded, with inputs on which it fails and the condition for it to hold.

- A record of 64 KiB or more is accepted, but no later restart can read the log: any value of
  48 KiB does it (`JsonCodec.LongValueDoesNotFit`, `JsonCodec.LongValueLosesStore`), and without
  crashes and failing appends nothing else does (`Wal.RunRefinesMap` with `Wal.WithoutCrashes`).
- A crash that loses only the last newline reopens cleanly, and the next acknowledged write makes
  the log unreadable for good; after every other crash that reopens, what is written later reads
  back if it fits the scanner (`Wal.AppendAfterTornNewline`, `Wal.AppendAfterCrash`).
- An append that reports an error after part of its line was written is not repaired: the next
  acknowledged write makes the log unreadable for good (`Wal.FailedAppendLosesStore`; exactly when,
  `Wal.RunRefinesMap`).
- A failed Sync leaves the record in the log but not in memory, and the next restart shows it
  (`Wal.FailedSyncShowsLater`, `Wal.SyncFailureDisagrees`, `Wal.MemoryIsPlain`).
- `docs/heartbeat.md:62-64` says an answering node is set online and a silent one goes offline
  after 40 seconds. Nothing sets a node online (`Routing.ApiRunsNeverRoute`), and each mark restarts
  the 40 seconds (`Sweeps.OfflineTiming`): a node can be silent for any number of sweeps and stay
  unknown (`Sweeps.SilenceCanLastForever`).
- An update request that read a node before a failed poll and writes it after puts the node back
  online, its mark with it (`Lifecycle.UpdateUndoesPoll`; exactly when, `Lifecycle.StatusOnlyDegrades`
  and `Lifecycle.MarksMoveOnlyByPolls`). In the same way a removed node or replica comes back
  (`Lifecycle.RemovedNodeStaysGone`, `Lifecycle.RemovedReplicaStaysGone`).
- `UpdateModelInfo` does not check names (`Models.UpdateCanDuplicateName`,
  `Models.UpdateKeepsUnique`).
- A negative resume offset mislabels every chunk
  (`Download.NegativeResumeMislabels`, `Download.OffsetsAreTrueExactlyWhenNotNegative`).
- A first read shorter than two bytes makes the server refuse a good file
  (`Upload.ShortFirstReadIsRefused`, `Upload.UploadRoundTrip`).

## Model

| member | source | states |
|---|---|---|
| Balancer.WeightedRoundRobin.constructor | internal/agent/balancer/balancer.go:29-34 | a new balancer stands before the first position at level 0 |
| Balancer.WeightedRoundRobin.Pick | internal/agent/balancer/balancer.go:37-69 | from any state and for any list: an error and no change when nothing is healthy; otherwise the healthy endpoint at (currentIndex + t) mod n, where the level is one less per wrap past position 0 and starts again at W, for the first t at which the weight reaches the level or the zero fallback holds, and t is at most n·(max(0, ceil(currentWeight − W)) + 1) |
| Balancer.WeightedRoundRobin.Iterate | internal/agent/balancer/balancer.go:54-67 | one iteration moves the cursor by `Advance` and returns exactly when `Stops` holds |
| Balancer.HighestWeight | internal/agent/balancer/balancer.go:46-51 | the larger of 0 and the largest weight |
| Balancer.FilterHealthy | internal/agent/balancer/balancer.go:72-80 | the healthy endpoints, in order |
| Balancer.HealthyInOrder | internal/agent/balancer/balancer.go:72-80 | each healthy endpoint comes in the place that the healthy ones before it leave it |
| Balancer.HealthyCount | internal/agent/balancer/balancer.go:72-80 | there are as many as are healthy |
| Balancer.MaxWeight | internal/agent/balancer/balancer.go:46-51 | bounds every weight, is not negative, and is 0 or attained |
| Balancer.RankDecreases | internal/agent/balancer/balancer.go:53-68 | every iteration that does not return lowers a natural number, whatever list came before |
| Balancer.PickTerminates | internal/agent/balancer/balancer.go:37-69 | the iteration bound, for all weights and all cursors |
| Balancer.WalkIsArithmetic | internal/agent/balancer/balancer.go:53-68 | after t iterations from any cursor the index is (index + t) mod n and the level a closed formula of the wraps past 0 |
| Balancer.PickIsFirstReturn | internal/agent/balancer/balancer.go:53-68 | a pick takes the first iteration at which the walk may return |
| Fairness.PicksAreWalk | internal/agent/balancer/balancer.go:53-68 | every number of picks is all the stops of one uninterrupted walk |
| Fairness.WalkIsPasses | internal/agent/balancer/balancer.go:53-68 | from a fresh balancer the walk is passes over the list at levels W, W − 1, … restarting at W |
| Fairness.PrefixFairness | internal/agent/balancer/balancer.go:53-68 | after every number of picks over non-negative weights, all zero included, a weight at least as large has at most one pick fewer |
| Fairness.CycleShares | internal/agent/balancer/balancer.go:53-68 | a cycle picks position i ceil(W) − ceil(W − w) times: strictly within 1 of w, and w itself when w is an integer |
| Fairness.PicksArePeriodic | internal/agent/balancer/balancer.go:53-68 | the picks are one cycle followed by what a fresh balancer picks, for every length |
| Fairness.ExactProportion | internal/agent/balancer/balancer.go:37-69 | after any number of whole cycles each position has exactly its share per cycle |
| Fairness.CycleLength | internal/agent/balancer/balancer.go:37-69 | a cycle is as many picks as the shares add up to |
| Fairness.IntegerWeightsAreExact | internal/agent/balancer/balancer_test.go:10-45 | with integer weights, of every sum-of-weights picks from the start each endpoint has exactly its weight |
| Fairness.PickRepeatedly | internal/agent/balancer/balancer_test.go:10-45 | calling Pick k times on one list chooses the endpoints at the positions the theorems speak of |
| Wal.Store.New | internal/control-plane/store/store.go:36-67 | opening succeeds exactly when replay does, with the replayed map; for a log of whole records exactly when each has fewer than 65536 bytes, with the fold of the records |
| Wal.Store.ReplayWAL | internal/control-plane/store/store.go:70-92 | the scan loop computes the replay of the lines, failing on a long line, an undecodable line or an unknown operation |
| Wal.Store.AppendRecord | internal/control-plane/store/store.go:189-204 | succeeds exactly when the log is open and the file system makes this append durable; the framed record, or the part of it that a short write leaves, is at the end of the log |
| Wal.Store.Put | internal/control-plane/store/store.go:107-128 | fails only for an empty key, a closed log or a failed append; success updates log and map together and keeps them in agreement, an error leaves the map alone and in the log what the append left |
| Wal.Store.Delete | internal/control-plane/store/store.go:142-162 | the same for removal |
| Wal.Store.Get | internal/control-plane/store/store.go:131-139 | the map's value or none |
| Wal.Store.Keys | internal/control-plane/store/store.go:165-173 | every key exactly once, in no particular order |
| Wal.Store.Close | internal/control-plane/store/store.go:176-186 | fails exactly when the log is open and the file does not close; otherwise the store is closed, and closing twice succeeds |
| Wal.WriteIsStep | internal/control-plane/store/store.go:107-162 | what Put and Delete promise is one step of a run: done, or failed after some byte |
| Wal.ReplayWritten | internal/control-plane/store/store.go:70-92 | replaying written records followed by any bytes is replaying those bytes from the folded map, or an error if a record does not fit |
| Wal.ReopenRestores | internal/control-plane/store/store.go:36-92 | reopening an intact log gives exactly the map, if and only if every record fits the scanner |
| Wal.OneRecordReplays | internal/control-plane/store/store.go:70-92 | a log of one record, its line ended by LF, CR LF or nothing, opens exactly if the line has fewer than 65536 bytes, and then holds what the record says |
| Wal.ShortRecordsReopen | internal/control-plane/store/store.go:75-91 | a log of whole records opens exactly if each has fewer than 65536 bytes |
| Wal.BadRecordStops | internal/control-plane/store/store.go:77-89 | a line that does not decode or holds an unknown operation makes opening fail, whatever follows |
| Wal.RunRefinesMap | internal/control-plane/store/store.go:36-173 | any run of puts, deletes, appends that report an error after any byte, restarts and crashes at any byte keeps opening if and only if, at each opening, nothing was cut inside its record or appended to a line left open and every record fits the scanner; it then answers from the plain map as of the last restart and the writes acknowledged since |
| Wal.MemoryIsPlain | internal/control-plane/store/store.go:106-162 | that is a plain map that never stops, as long as no append since the last restart reported an error with its whole record in the file |
| Wal.WithoutCrashes | internal/control-plane/store/store.go:36-92 | in a run without crashes and failing appends nothing is hidden and the condition is only that every record before a restart fits the scanner |
| Wal.CrashAtAnyByte | internal/control-plane/store/store.go:189-204 | for a crash after any byte of the last append: the map without the operation, an error, or the map with it, and which it is; nothing acknowledged is lost |
| Wal.AppendAfterTornNewline | internal/control-plane/store/store.go:75-104 | once a record follows one that lost only its newline, opening fails whatever is in the log after it |
| Wal.AppendAfterCrash | internal/control-plane/store/store.go:75-104 | for every crash that reopens and any operations appended after it: the map of the surviving and the new records, or an error exactly when the newline alone was lost or a record does not fit |
| Wal.FailedAppendLosesStore | internal/control-plane/store/store.go:197-202 | an append that reports an error after part of its line, then any acknowledged write: the next restart fails |
| Wal.FailedSyncShowsLater | internal/control-plane/store/store.go:197-202 | a put refused by a failed Sync is not in the map, and is in it after the next restart |
| Wal.SyncFailureDisagrees | internal/control-plane/store/store.go:197-202 | after a failed Sync, log and map agree exactly when the operation was redundant and every line fits |
| JsonCodec.ReadEscaped | internal/control-plane/store/store.go:20-24 | an escaped key followed by its quote reads back to the key, whatever follows |
| JsonCodec.PlainText | internal/control-plane/store/store.go:20-24 | printable ASCII other than quotes, backslashes and HTML characters is written as it is |
| JsonCodec.Base64RoundTrip | internal/control-plane/store/store.go:20-24 | a base64 value decodes to its bytes |
| JsonCodec.Base64Text | internal/control-plane/store/store.go:20-24 | base64 is four digits of the 24-bit number of three bytes, padded at the end |
| JsonCodec.ReadEncoded | internal/control-plane/store/store.go:189-195 | an encoded record reads back, leaving exactly what follows it |
| JsonCodec.JsonIsValid | internal/control-plane/store/store.go:189-195 | the encoding round-trips and contains no line break, and neither a proper part nor several parts or encodings run together decode |
| JsonCodec.RunTogether | internal/control-plane/store/store.go:75-80 | a record, or any beginning of one cut even inside a character or escape, followed by parts of other records does not decode |
| JsonCodec.LongValueDoesNotFit | internal/control-plane/store/store.go:20-24 | a value of 48 KiB or more makes a record the scanner cannot read |
| JsonCodec.LongValueLosesStore | internal/control-plane/store/store.go:75-91 | putting such a value succeeds and the next restart fails |
| JsonCodec.ShortRecordReopens | internal/control-plane/store/store.go:75-91 | a put whose key and value lengths give 6·|key| + 4·ceil(|value|/3) + 32 < 65536 is read back as its key and value |
| JsonCodec.ShortRunsNeverFail | internal/control-plane/store/store.go:36-173 | over every run of such writes and restarts the store opens and answers as a plain map |
| Records.KeyOfId | internal/control-plane/controller/registry/node_registry.go:147-152 | a key of a kind is that kind's key for its ID, so prefixes separate the kinds |
| Registry.RegisterNode | internal/control-plane/controller/registry/node_registry.go:15-38 | the record is stored under its key with ID and times filled in; an error, only for an empty ID or a failed append, changes nothing |
| Registry.RegisterFillsIn | internal/control-plane/controller/registry/node_registry.go:15-38 | the stored node has every field as given, the ID and missing registration and activity times filled in, and the update time set; no other key changes |
| Registry.DeRegisterNode | internal/control-plane/controller/registry/node_registry.go:41-46 | the node's key alone is removed |
| Registry.DeRegisterRemoves | internal/control-plane/controller/registry/node_registry.go:41-46 | an error only for an empty ID; the key is gone and no other changes |
| Registry.UpdateNodeInfo | internal/control-plane/controller/registry/node_registry.go:49-86 | refuses an ID mismatch and an undecodable record; otherwise stores the record with missing times kept |
| Registry.UpdateTakesOver | internal/control-plane/controller/registry/node_registry.go:49-86 | when an update succeeds, and each field afterwards: as given, kept from the record, or filled in |
| Registry.UpdateKeepsHistory | internal/control-plane/controller/registry/node_registry.go:60-79 | an update without times keeps registration, heartbeat and activity times and adds no key |
| Registry.UpdateNodeStatus | internal/control-plane/controller/registry/node_registry.go:89-121 | sets the status and refreshes the heartbeat time of an existing record, otherwise an error |
| Registry.StatusIsSet | internal/control-plane/controller/registry/node_registry.go:89-121 | when a status update succeeds, and each field afterwards |
| Registry.KeysOf | internal/control-plane/controller/registry/node_registry.go:147-152 | the keys of one kind, each once |
| Registry.ListNodes | internal/control-plane/controller/registry/node_registry.go:143-166 | succeeds exactly when every node record decodes, and lists each once |
| Registry.ListNodesByStatuses | internal/control-plane/controller/registry/node_registry.go:169-181 | the listed nodes in the given statuses |
| Registry.CreateReplica | internal/control-plane/scheduler/replica/replica_manager.go:12-29 | stores the replica under its key with a matching ID, or an error |
| Registry.ReplicaIsPut | internal/control-plane/scheduler/replica/replica_manager.go:12-29 | succeeds exactly for a non-empty ID the record does not contradict, and stores every field as given |
| Registry.UpdateReplicaInfo | internal/control-plane/scheduler/replica/replica_manager.go:51-67 | the same for replacement |
| Registry.DeleteReplica | internal/control-plane/scheduler/replica/replica_manager.go:70-75 | the replica's key alone is removed |
| Registry.ReplicaIsDeleted | internal/control-plane/scheduler/replica/replica_manager.go:70-75 | an error only for an empty ID; the key is gone and no other changes |
| Registry.GetReplicaByID | internal/control-plane/scheduler/replica/replica_manager.go:33-48 | an error for an empty ID or an undecodable record, else the record or none |
| Registry.ReplicaIsFound | internal/control-plane/scheduler/replica/replica_manager.go:33-48 | exactly when it is an error, none, or the stored record |
| Registry.ListReplicas | internal/control-plane/scheduler/replica/replica_manager.go:78-101 | succeeds exactly when every replica record decodes, and lists each once |
| Registry.ListReplicasByModelID | internal/control-plane/scheduler/replica/replica_manager.go:104-122 | exactly the model's replica records, each once |
| Models.GetModelByNamespaceAndName | internal/control-plane/controller/registry/model_registry.go:125-150 | a model of the name if and only if there is one; with unique names the same one in every listing order |
| Models.RegisterModel | internal/control-plane/controller/registry/model_registry.go:22-49 | stores the model only if its name is free, its ID matches and every model decodes |
| Models.RegisterOutcome | internal/control-plane/controller/registry/model_registry.go:22-49 | exactly when a model is registered, in terms of the stored records, and that it is stored as given |
| Models.DeRegisterModel | internal/control-plane/controller/registry/model_registry.go:52-57 | the model's key alone is removed |
| Models.DeRegisterOutcome | internal/control-plane/controller/registry/model_registry.go:52-57 | an error only for an empty ID; the key is gone and no other changes |
| Models.UpdateModelInfo | internal/control-plane/controller/registry/model_registry.go:60-76 | stores the model under its ID without looking at names |
| Models.UpdateOutcome | internal/control-plane/controller/registry/model_registry.go:60-76 | succeeds exactly for a non-empty ID the record does not contradict, and stores every field as given |
| Models.UpdateKeepsUnique | internal/control-plane/controller/registry/model_registry.go:60-76 | an update keeps names unique if and only if no other record holds its name |
| Models.UpdateCanDuplicateName | internal/control-plane/controller/registry/model_registry.go:60-76 | two registrations and one update that give two models one name |
| Models.LookupUndisturbed | internal/control-plane/controller/registry/model_registry.go:130-147 | lookup by name gives the same model before and after any node or replica write |
| Models.NamesStayUnique | internal/control-plane/controller/registry/model_registry.go:22-76 | every run keeps record IDs equal to keys, and keeps (namespace, name) unique after every operation if and only if no update takes a name another record holds |
| Queries.GetModelStatus | internal/control-plane/controller/status/model_status.go:27-84 | counters that count the model's replica records and sum to their number; running iff all run and there is one, partial iff some but not all run, failed iff all failed and there is one |
| Queries.CountedAre | internal/control-plane/controller/status/model_status.go:44-57 | which stored records count under which status |
| Queries.GetNodesByModelName | internal/control-plane/controller/registry/model_registry.go:152-201 | each node listing a stored replica of the model exactly once, and no other |
| Heartbeat.FirstReport | internal/control-plane/controller/heartbeat/heartbeat.go:42-48 | the first report on the replica, or none exactly when there is none |
| Heartbeat.StatusSurvivesReport | internal/control-plane/controller/heartbeat/heartbeat.go:90-103 | a status the agent reports arrives as itself, any other text as unknown |
| Heartbeat.StatusTexts | internal/control-plane/controller/heartbeat/heartbeat.go:90-103 | the four status texts |
| Heartbeat.RefreshReplicas | internal/control-plane/controller/heartbeat/heartbeat.go:40-83 | with no append failing, the listed replicas are refreshed in order and the log still agrees |
| Heartbeat.RefreshedFields | internal/control-plane/controller/heartbeat/heartbeat.go:62-76 | every field of a refreshed replica, reported or left out |
| Heartbeat.PollOne | internal/control-plane/controller/heartbeat/heartbeat.go:26-83 | a failure marks the node offline past 40 seconds and unknown otherwise; an answer refreshes its replicas |
| Heartbeat.MissedAfter40Seconds | internal/control-plane/controller/heartbeat/heartbeat.go:27-35 | a silent node is offline exactly if its last mark is more than 40 seconds old |
| Heartbeat.HandleHeartbeat | internal/control-plane/controller/heartbeat/heartbeat.go:15-87 | fails exactly when a node record does not decode; otherwise sends the table of the store it started from, polls the online and unknown nodes, and leaves the swept store, in agreement with its log |
| Heartbeat.SweepThenRestart | internal/control-plane/store/store.go:36-67 | a restart after a sweep whose appends succeeded reads back exactly the swept store, if the log opens |
| Heartbeat.BuildServiceEndpoints | internal/control-plane/controller/heartbeat/heartbeat.go:106-147 | one element per model, holding exactly the entries of the online nodes; no table if a node record does not decode |
| Heartbeat.EndpointFields | internal/control-plane/controller/heartbeat/heartbeat.go:126-133 | every field of an endpoint |
| Heartbeat.TopsAddUp | internal/control-plane/controller/heartbeat/heartbeat.go:115-118 | the weight adds up the TOPS of the devices, each mantissa times a power of two |
| Sweeps.ListingIsExact | internal/control-plane/controller/registry/node_registry.go:143-181 | a listing of a well-formed store holds each node in the statuses exactly once |
| Sweeps.SweepFrame | internal/control-plane/controller/heartbeat/heartbeat.go:25-84 | a sweep adds and removes no key and changes only silent nodes' records and answering nodes' listed replicas |
| Sweeps.SweepReportsReplica | internal/control-plane/controller/heartbeat/heartbeat.go:25-84 | every stored replica ends as all answers that cover it report it, in listing order |
| Sweeps.SweepRefreshesReplica | internal/control-plane/controller/heartbeat/heartbeat.go:38-83 | a stored replica ends with what the last answering node that lists it reported first, or unknown; its whole record is the old one so refreshed if no other answering node lists it |
| Sweeps.SweepMarksNode | internal/control-plane/controller/heartbeat/heartbeat.go:26-36 | a silent node's record is its own record marked once |
| Sweeps.OfflineTiming | internal/control-plane/controller/heartbeat/heartbeat.go:26-36 | over any number of sweeps, an unknown node that keeps failing stays unknown if and only if each poll comes within 40 seconds of the mark before |
| Sweeps.SilenceCanLastForever | internal/control-plane/controller/heartbeat/heartbeat.go:27-36 | from any store, for any number of sweeps there is a run in which an unknown node fails every poll, 40 seconds apart, and is still unknown |
| Sweeps.TableIsLive | internal/control-plane/controller/heartbeat/heartbeat.go:106-136 | every endpoint in a table is an online node listing a stored running replica of that model, weighted by its summed TOPS |
| Sweeps.TableIsExact | internal/control-plane/controller/heartbeat/heartbeat.go:106-147 | a table lists a node's replica under a model exactly as often as the online node lists that stored, running replica |
| Agents.Agent.constructor | internal/agent/agent.go:172-199 | a new agent has an empty cache, no models and a fresh balancer |
| Agents.Agent.UpdateEndpoints | internal/agent/agent.go:60-68 | the cache becomes that of the table |
| Agents.Agent.RequestHeartbeat | internal/agent/api/grpc/monitor.go:27-56 | an empty table leaves the cache alone; the assigned models are reported |
| Agents.Agent.GetEndpoints | internal/agent/agent.go:70-74 | the model's cached endpoints |
| Agents.Agent.AssignModel | internal/agent/agent.go:76-82 | adds the replica unless its ID is there already |
| Agents.Agent.HandleInfer | internal/agent/agent.go:204-239 | runs locally if and only if some assignment has the model, forwarded or not, and then on the first such replica; refuses only a forwarded request or one without a healthy cached endpoint; otherwise forwards to the one the balancer picks |
| Agents.DecisionIsRight | internal/agent/agent.go:204-239 | each decision in terms of the assignments, the cached endpoints and the pick |
| Agents.CacheAgreesWithTable | internal/agent/agent.go:60-74 | for a built table the cache looks up exactly the model's endpoints |
| Agents.LastElementWins | internal/agent/agent.go:60-74 | for any table the cache gives the endpoints of the last element for the model, or none |
| Agents.CacheIsLastTable | internal/agent/api/grpc/monitor.go:35-37 | after any run of heartbeats the cache is that of the last non-empty table |
| Agents.ForwardedAtMostOnce | internal/agent/forward.go:29-34 | in any network, with any caches, a request makes at most one hop, only from an agent without the model, to a healthy cached endpoint, and is answered only by an agent that has the model |
| Agents.RequestIsServed | internal/agent/agent.go:204-239 | an agent with the model serves the request with its first replica of it and no hop; any other that knows a healthy endpoint makes one hop, and there it is served exactly if the agent at that address has the model |
| Cluster.UninterruptedSweep | internal/control-plane/controller/heartbeat/heartbeat.go:15-87 | from every state between sweeps, a run of nothing but sweep steps makes all look-ups in the store found, builds its table and leaves the store as the sweep made in one go |
| Cluster.WriteStores | internal/control-plane/api/grpc/registry/node_registry.go:76-80 | an update request writes the metadata and devices it carries into the record it read, and changes no other |
| Lifecycle.StatusOnlyDegrades | internal/control-plane/controller/heartbeat/heartbeat.go:19-36 | over every run of interleaved calls, a node's status moves at each step only from online to unknown or offline, from unknown to offline, or away, if and only if no update request writes a status that is not the stored one any more; and then it does so over the whole run |
| Lifecycle.MissTakesNodeOut | internal/control-plane/controller/heartbeat/heartbeat.go:27-36 | a failed poll leaves the node unknown, offline or gone, with an ID that is never reused |
| Lifecycle.UpdateUndoesPoll | internal/control-plane/api/grpc/registry/node_registry.go:67-80 | an update request that reads a node before a failed poll and writes it after restores its status and mark, from every state with a node to poll |
| Lifecycle.MarksMoveOnlyByPolls | internal/control-plane/api/grpc/registry/node_registry.go:67-80 | a node's status and mark change only by failed polls and removal if and only if no update request writes older ones |
| Lifecycle.OfflineTimingOverRuns | internal/control-plane/controller/registry/node_registry.go:106-114 | over every run of interleaved calls in which no update request writes older marks, an unknown node that fails every poll is gone exactly if it was deregistered, else unknown if each poll came within 40 seconds of the mark before, else offline |
| Lifecycle.RemovedNodeStaysGone | internal/control-plane/controller/registry/node_registry.go:41-86 | a removed node stays removed in every run, if and only if no update request has read it and not written it yet |
| Lifecycle.RemovedReplicaStaysGone | internal/control-plane/controller/heartbeat/heartbeat.go:51-82 | a removed replica stays removed in every run that does not put it again, if and only if no sweep is between reading it and writing it back |
| Routing.NotOnlineIsNotRouted | internal/control-plane/controller/heartbeat/heartbeat.go:106-136 | once a known node is not online, no table whose building starts later in the run names it, as long as no update request writes a status that is not the stored one any more |
| Routing.MissedIsNotRouted | internal/control-plane/controller/heartbeat/heartbeat.go:26-36 | in every run from an initial state, a node that failed a poll is named by no table built later, as long as no update request writes a status of it that is not the stored one any more |
| Routing.RoutingSafety | internal/agent/agent.go:227-238 | over every run, every forwarded request went to an endpoint that the table last supplied to its agent gives for the model; while that very table was being built, the store listed the target's node online with the replica, and the replica was then found running the model |
| Routing.RequestIsForwarded | internal/agent/agent.go:227-238 | an agent without the model that knows a healthy endpoint of it forwards the request once, to such an endpoint |
| Routing.LiveModelIsRouted | internal/control-plane/controller/heartbeat/heartbeat.go:106-147 | if an online node lists a running replica of a model, then after one sweep and one heartbeat an agent without the model forwards a request for it to such a node |
| Routing.CachesAreLastSupplied | internal/agent/api/grpc/monitor.go:35-37 | after every run each agent's cache is that of the last non-empty table delivered to it since it started, or empty without one |
| Routing.ApiRunsNeverRoute | internal/control-plane/api/grpc/registry/node_registry.go:118-173 | with nodes registered only through the API, no node is ever online, every table is empty and nothing is ever forwarded |
| WorkerPool.NextKeeps | internal/agent/runway/worker.go:37-149 | every step of every pool, worker and caller keeps the invariant |
| WorkerPool.JobsAreConserved | internal/agent/runway/worker.go:66-84 | in every reachable state an accepted job is in exactly one place: one queue position, one worker, or answered, with exactly one reply in its channels or returned |
| WorkerPool.AnsweredCanReceive | internal/agent/runway/worker.go:126-149 | a waiting call can receive exactly when its job has been answered |
| WorkerPool.ReplyNeverBlocks | internal/agent/runway/worker.go:126-131 | a worker holding a job can always send its reply, even to a caller that timed out |
| WorkerPool.BacklogIsBounded | internal/agent/runway/worker.go:45-84 | a pool has at most 100 jobs queued, at most one held per worker, and no more unanswered than both together |
| WorkerPool.StartedPoolIsBounded | internal/agent/runway/worker.go:45-84 | a pool that is started has max(1, instanceCount) workers ever after, none of them exited until it is stopped, holds at most that many jobs and has at most 100 more unanswered |
| WorkerPool.StartOutcome | internal/agent/runway/worker.go:37-93 | a pool with idle workers is started exactly for a replica that has none and loads |
| WorkerPool.StopOutcome | internal/agent/runway/worker.go:96-112 | a stop signals quit to the registered pool and forgets it, and changes nothing else |
| WorkerPool.SubmitOutcome | internal/agent/runway/worker.go:131-137 | a job goes to the end of the queue, or is rejected if 100 are queued |
| WorkerPool.TakeOutcome | internal/agent/runway/worker.go:69-76 | an idle worker can take the job at the front of the queue |
| WorkerPool.AnswerReachesCaller | internal/agent/runway/worker.go:77-83 | a worker's answer frees it and is what the waiting call returns |
| WorkerPool.QueueIsServed | internal/agent/runway/worker.go:65-84 | in a pool that was not stopped no worker is dead, so a queued job can be taken or every worker can finish |
| WorkerPool.JobCanBeAnswered | internal/agent/runway/worker.go:65-84 | from every reachable state every accepted job of such a pool can reach an answer, which a waiting caller can then receive |
| WorkerPool.CallsAreIsolated | internal/agent/runway/worker.go:117-149 | a returned reply was produced on the session of the pool looked up, from the call's own input, for the replica asked for |
| WorkerPool.ReplyIsFromPoolLookedUp | internal/agent/runway/worker.go:97-149 | the same whatever stops, restarts and other calls come after the lookup |
| Upload.Disk.UploadModel | internal/control-plane/api/grpc/registry/model_transfer.go:142-273 | the handler leaves the files and outcome of the specification run, and ends failed or committed |
| Upload.Disk.ReceiveChunks | internal/control-plane/api/grpc/registry/model_transfer.go:194-264 | the receive loop, its size and digest checks and the rename, against the same run |
| Upload.FailureLeavesNothing | internal/control-plane/api/grpc/registry/model_transfer.go:185-192 | for every event stream, with faults anywhere: an upload that ends without its rename leaves the files exactly as they were |
| Upload.CommittedUploads | internal/control-plane/api/grpc/registry/model_transfer.go:142-264 | over any interleaving, a path no upload was renamed to, other than the uploads' own temporary files, is as before; every other holds the full content of the last upload renamed to it, with the declared size and digest, two bytes or more and a valid first byte |
| Upload.CommittedFileExists | internal/control-plane/api/grpc/registry/model_transfer.go:252-272 | the file of every committed upload is there and holds the last upload committed to that path whole |
| Upload.TempsAreReceiving | internal/control-plane/api/grpc/registry/model_transfer.go:178-192 | over any interleaving, an upload has a temporary file exactly while it is receiving |
| Upload.SendChunks | internal/client/cmd/upload.go:72-99 | non-empty chunks as the reads give them, at most 2 MiB, with contiguous offsets, that make up the file; it ends early only at a read or send that fails, after a prefix of it |
| Upload.UploadRoundTrip | internal/client/cmd/upload.go:58-99 | for every chunking, the server stores exactly the client's bytes if and only if the name and first chunk pass, and otherwise changes nothing |
| Upload.StoredUnderName | internal/control-plane/api/grpc/registry/model_transfer.go:252-264 | a good upload is stored at the model directory, a slash, and the last part of its trimmed name, and nothing else changes |
| Upload.DifferentNamesApart | internal/control-plane/api/grpc/registry/model_transfer.go:254-255 | uploads of different slash-free names never share a path |
| Upload.FirstMessage | internal/control-plane/api/grpc/registry/model_transfer.go:142-183 | the first message is accepted exactly if it is complete metadata for an ONNX file |
| Upload.TrimTakesSpaces | internal/control-plane/api/grpc/registry/model_transfer.go:150-165 | trimming takes off all spaces at both ends and nothing else |
| Upload.ShortFirstReadIsRefused | internal/control-plane/api/grpc/registry/model_transfer.go:221-224 | every good file that fits one chunk is stored if sent so, and refused if its first chunk is one byte |
| Download.DownloadModel | internal/control-plane/api/grpc/registry/model_transfer.go:82-119 | the chunks sent are non-empty, as the reads give them, contiguous from the requested offset, and the file's bytes from the start position; it ends early only when cancelled or at a read or send that fails |
| Download.CompleteIsAllThatIsLeft | internal/control-plane/api/grpc/registry/model_transfer.go:82-119 | a download that completes has sent the whole file, or all of it from a positive offset on |
| Download.OffsetsAreTrueExactlyWhenNotNegative | internal/control-plane/api/grpc/registry/model_transfer.go:83-91 | chunk offsets are the true positions if and only if the requested offset is not negative |
| Download.NegativeResumeMislabels | internal/control-plane/api/grpc/registry/model_transfer.go:83-91 | every file of one chunk asked for from a negative offset is sent whole under a false offset |
| Download.ResumeReassembles | internal/control-plane/api/grpc/registry/model_transfer.go:82-119 | any chain of interrupted downloads, each resumed at the bytes received, holds a prefix of the file, and the whole file once one finishes |

## Left out

- gRPC servers and clients, protobuf code and proto conversions other than the fields named above: transport and field copying.
- ONNX tensor work and feature scaling: foreign code; a worker may reply with any outcome.
- GPU, memory and network detection, the CLI, configuration and YAML handling: no state worth a theorem.
- The staleness monitor that re-registers an agent: one branch; re-registration is a registration step with a fresh ID.
- Mutexes and races inside one registry call: each call is one step, so a lost update between the read and the write of one call is not captured (between the calls of one request it is).
- Store write failures inside sweeps and cluster runs: the sweep's result is stated for sweeps whose writes succeed.
- Node fields other than those the operations read (memory, storage, device details) and the model's input format: carried along unchanged.
- The registry lookup before a download and the path cleaning of stored file paths: a download starts from an opened file.
- Liveness of the worker pool: that a job accepted before a stop is answered, or that no worker runs on a destroyed session; the code gives neither.

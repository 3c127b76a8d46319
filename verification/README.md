# A verified model of the distributed storage nodes

This project models an in-memory, versioned, partitioned key-value store whose nodes
gossip membership, split a token ring between them, bootstrap a new node from a live one
while writes go on, and fan writes and reads out to replicas. `dafny verify dfyconfig.toml`
checks all of it.

Code that changes objects is modelled by classes and proved against specification
functions and relations; goroutines that share state are modelled by step machines, one
atomic action per step, and the properties hold on every interleaving.

| Module | What it models |
|---|---|
| `StoreLog`, `DataStores` | the store: what one write means, and the class that does it on slices over backing arrays, with its hook and its snapshots |
| `Replicas` | a replica's log after reordered and repeated deliveries |
| `Streams`, `StreamOrder`, `SessionSteps`, `NoLostWrite`, `HookCalls`, `Bootstrap`, `Overtaking`, `LostWrites` | one bootstrap session: writers, snapshot producer, ticker, stream loop and joining node |
| `Gossips`, `Membership`, `StaleSeed` | the gossip view with its counters, and the cluster that exchanges views |
| `Ring`, `Routing` | owner search, replica windows, hand-off, and where a request goes |
| `FanOut`, `Quorum` | "run until enough succeed", the newest of several replies, overlapping quorums |
| `Coordinator` | the deprecated coordinator's sorted array |
| `Nodes` | a node's handlers, built from the above |
| `Guarantees` | hand-off and quorum reads from end to end |
| `Types`, `Sets`, `Sorting` | values, sizes of finite sets, and sorting with ties in any order |

## How the parts fit

- A write is a relation, `StoreLog.Commits`: the library sort is not stable, so equal
  versions may end up in either order. `DataStore.PutRaw` is proved to satisfy it, and every
  store in the session machine, in a replica's life and in a quorum read moves by it.
- The joining node's loop (`Node.HandleEvent`) is proved to be the session machine's consuming
  step and, at the end of the snapshot, the cluster machine's serving step. The constructor,
  `Node.ChangeStateToBootstrappingIfReady`, `Node.MergeRecord`, `Node.PublishSelf` and
  `Node.GetMetaDataNode` are proved to be the cluster machine's creation, check, merge, publish
  and metadata (`Node.Mirrors` ties a node to its member of the cluster).
- `Node.PostData` and `Node.GetData` are proved to follow `Routing.DecidePost` and
  `Routing.DecideGet`, functions of the sorted view alone; the routing properties are about these.

## Where the code falls short of what it says

Each of these has a lemma with a concrete failing case, an exact condition, or both.

- A replica is said to keep the version it is sent (`nodes/main.go:565-566`); a key it lacks is
  stored as version 1 (`store/data_store.go:111-115`). `Quorum.AckKeepsVersionIff` and
  `Replicas.ReplicaConvergesIff` say exactly when that matters.
- A bootstrapped node can end up behind its source with nothing lost, when a live event
  overtakes its key's snapshot event: `Overtaking.LiveOvertakesSnapshot`, with
  `Bootstrap.BootstrapConvergesIff` as the exact condition.
- A session can lose a write for good although the write came before the hook's cancellation.
  The live channel is closed before the hook is reset (`nodes/main.go:1138-1139`), and on reading
  the close the loop sets the channel variable to nil (`nodes/main.go:1244-1245`). A hook call that
  meets the closed channel panics (`LostWrites.ClosedChannelLosesWrite`); one that meets the nil
  channel never returns (`LostWrites.NilChannelLosesWrite`); and one that waits when the client
  disconnects finds nobody receiving any more (`LostWrites.DisconnectBlocksWriter`).
  `HookCalls.HookOutcomeIff` says exactly which schedule leads to which outcome, and
  `HookCalls.NeverSentIff` exactly when a write can no longer be streamed however the session goes on.
- A node's metadata pairs its creation stamp with its present state (`nodes/main.go:327-328`).
  A newcomer that asks a seed which has changed state since its creation holds a record nobody
  published and can fall back: `StaleSeed.StaleSeedRegresses`. `Membership.MetadataSafeIff` and
  `Membership.CreateSoundIff` show that "the seed is in the state it was created in" is exact.
- The snapshot source is looked up in an unsorted list although the lookup asks for a sorted one
  (`nodes/main.go:356-358`, `helper/helper.go:122`): `Ring.AnyOrderFindsNearestIff`,
  `Guarantees.AskedIsOldOwnerIff`. For the largest end the requested token wraps to 0:
  `Ring.WrappedRequestAsksFirstAvailable`.
- Writes are said to need one AVAILABLE node more than there are replicas
  (`nodes/main.go:560-561`); the code asks for as many as there are replicas, stores, and only
  then fails when the window is too short: `Routing.StoredButFailedIff`.
- The default quorums need not overlap: `Quorum.DefaultQuorumsMayMiss`, with `Quorum.OverlapIff`
  as the exact condition.
- Versions are compared as 64-bit floating-point numbers, so a read can return the older of two
  replies: `Quorum.OlderReplyWins`. `Quorum.FoldNewestIff` puts the limit at exactly 2^53.
- Coordinator nodes are never given a state, and lookups then always fail:
  `Coordinator.NothingOwnedIff`, with `Ring.LookupSucceedsIff` for a single token.

In two more places the model follows the code where its comments differ: a read quorum equal to
the replica count is accepted (`nodes/main.go:845`, `nodes/main.go:889`), and the ticker does not
wait for ten quiet seconds (`nodes/main.go:1130-1136`).

## Model

| member | source | states |
|---|---|---|
| StoreLog.CommitAdds | store/data_store.go:101-134 | one write adds exactly its entry to its key's log, keeps every log sorted and non-empty, and leaves other keys alone |
| StoreLog.CommitRaises | store/data_store.go:101-134 | no write, whatever version it supplies, lowers the visible version, and the written version is never above it |
| StoreLog.PutVersionIsNew | store/data_store.go:92-98 | a Put's version exceeds every stored one if and only if the top version is not the largest 64-bit value |
| StoreLog.PutPastLargest | store/data_store.go:117-118 | a Put when the largest version is held is stored under 0, and the key goes on showing an old entry |
| StoreLog.RunGrows | store/data_store.go:101-147 | over any run logs stay non-empty and sorted, gain one entry per write, lose none, and never show an older version |
| StoreLog.ReturnedStaysVisible | store/data_store.go:101-147 | a version once returned is never above what the key shows at any later point of the run |
| StoreLog.PutReturnsAboveEarlier | store/data_store.go:92-98 | a Put returns more than any earlier write to the key returned, unless versions ran out |
| StoreLog.PutOnlyRun | store/data_store.go:92-98 | a key only ever Put holds exactly what was put, numbered 1..n in write order |
| DataStores.Append | store/data_store.go:122-127 | an append, in place or into a larger array, keeps the entries and adds one |
| DataStores.AppendSorted | store/data_store.go:122-133 | the slice after append and in-place sort is some sorted order of the old entries and the new one |
| DataStores.DataStore.Get | store/data_store.go:61-70 | returns the value with the largest version, nil for a missing key |
| DataStores.DataStore.GetValAndVersion | store/data_store.go:72-90 | returns value and version with the largest version, nil and 0 for a missing key |
| DataStores.DataStore.Put | store/data_store.go:92-98 | commits one write without a supplied version, returns its version, calls the hook once |
| DataStores.DataStore.PutRaw | store/data_store.go:101-147 | the whole store moves by one commit, and the hook streams exactly this write if its key passes the filter |
| DataStores.DataStore.CommitLocked | store/data_store.go:107-141 | the part under the lock commits the write and leaves the hook alone |
| DataStores.DataStore.Snapshot | store/data_store.go:154-191 | installs the hook, returns exactly the store restricted to the filtered keys, in fresh arrays, and leaves the store as it was |
| DataStores.DataStore.ResetPostWriteHook | store/data_store.go:167-172 | the cancel closure leaves no hook set |
| DataStores.DataStore.InstallHook | store/data_store.go:161-165 | the snapshot's option, when given, replaces whatever hook was set |
| DataStores.DataStore.Size | store/data_store.go:193-197 | counts the keys |
| DataStores.Hook.Call | nodes/main.go:1173-1184 | a hook call sends one live event with the written key, value and version when the key passes the filter |
| DataStores.WriteAfterSnapshot | store/data_store.go:154-191 | any later writes, appended and sorted in place, never show through a snapshot |
| Replicas.ReplayRun | store/data_store.go:101-134 | a log after any deliveries holds exactly those delivered, the first taken as version 1 |
| Replicas.ReplicaConvergesIff | store/data_store.go:101-147 | for an absent key, the replica shows (n, value n) if and only if n = 1 or version n occurs at a non-first place |
| Replicas.HeldKeyShowsSetDelivered | store/data_store.go:101-147 | for a held key, the visible result depends only on the set of entries delivered |
| StreamOrder.RunOrdered | nodes/main.go:1085-1267 | on every interleaving the session's flags, stream markers, fed keys and joiner state stay in step |
| StreamOrder.OpenUntilServing | nodes/main.go:1121-1148 | the joiner serves exactly from reading the end of the snapshot on, and until then the live channel stays open and the hook is not cancelled |
| StreamOrder.StreamProtocol | nodes/main.go:1211-1265 | snapshot events precede the single SnapshotComplete, LiveComplete follows it and ends the stream, and the joiner serves only after every copied key was applied |
| SessionSteps.FlagsIff | nodes/main.go:1107-1148 | each flag of the session is up if and only if the step that raises it has been taken |
| SessionSteps.TakenOnce | nodes/main.go:1137-1146 | the two markers, the close, the cancel and the finish each happen at most once |
| SessionSteps.CopiedIff | nodes/main.go:1151-1186 | a producer that is through has copied if and only if it found keys and the joiner; otherwise there is no data on the stream and no hook, and without the joiner the cancel crashes |
| SessionSteps.CommitMadeAt | store/data_store.go:107-145 | every commit is some write step's, under the next version then, with the hook as it then was, late if and only if after the cancellation |
| SessionSteps.EndedStepsSilent | nodes/main.go:1211-1225 | nothing is added to the stream once it has ended |
| SessionSteps.RefusedNeverSent | nodes/main.go:1164-1186 | nothing of a key the filter refuses is copied or streamed |
| NoLostWrite.EveryWriteIsSomewhere | store/data_store.go:107-191 | every committed write that passes the filter and precedes the hook's cancellation is in the copy, on the stream, or in a hook call that has not ended, unless the live channel is closed and the call failed on it; in the copy if it committed before it |
| NoLostWrite.HeldEntryCopied | store/data_store.go:174-191 | every entry the source held when the session began stays in its store and is in the copy |
| HookCalls.HookOutcomeIff | nodes/main.go:1121-1184 | the schedule decides every hook call: still to enter, sent, waiting, stuck on the nil channel or panicked, each if and only if the call met the door named and was or was not received |
| HookCalls.CrashIff | nodes/main.go:1121-1184 | a step may end the process if and only if it is a hook call meeting a gone hook or a closed channel, the close with a send waiting, or a cancel with no function to call |
| HookCalls.StreamedIff | nodes/main.go:1211-1265 | a write's event is on the stream if and only if the loop received it, which needs its hook call to have met the open channel; another write with the same event apart |
| HookCalls.NeverSentIff | nodes/main.go:1211-1265 | no continuation of the session streams a write if and only if it has not been streamed and its hook call has ended or is stuck, the stream has ended, or the live channel is closed |
| LostWrites.NilChannelLosesWrite | nodes/main.go:1138-1139 | a session without crash, disconnect or anything left to read, whose source shows version 2 and joiner version 1: the hook call waits on the nil channel |
| LostWrites.ClosedChannelLosesWrite | nodes/main.go:1138-1139 | the same ending, the hook call having panicked on the closed channel |
| LostWrites.DisconnectBlocksWriter | nodes/main.go:1222-1225 | a disconnected session whose waiting hook call no continuation completes |
| NoLostWrite.RunCovered | nodes/main.go:1164-1186 | the hook stays set from installation to cancellation, logs lose nothing, finished hook calls were streamed or filtered, and every live event was some write's |
| NoLostWrite.NoCopyNoData | nodes/main.go:1151-1163 | a source that is empty or does not know the joiner installs no hook, streams no data and streams no later write |
| Bootstrap.AppliesReplays | nodes/main.go:395-414 | applying one event extends what the log of a key the joiner lacked replays by exactly that event's versions |
| Bootstrap.AppliesAdds | nodes/main.go:395-414 | applying one event adds exactly that event's versions to the log of a key the joiner held |
| Bootstrap.AllVersionsArrived | nodes/main.go:1164-1205 | once drained, every version the source holds of a key reached the joiner |
| Bootstrap.RunTold | nodes/main.go:353-417 | at every point of every session the joiner's log replays what it has read, and all of that is true of the source |
| Bootstrap.BootstrapConvergesIff | nodes/main.go:353-417 | at every point of every session, joiner and source show the same for a key written by Put alone if and only if the source has none of it, or what was read of it holds the only version or the newest at a non-first place |
| Bootstrap.BootstrapConverges | nodes/main.go:353-417 | once drained, with a copied key's snapshot event first and other keys' live events starting at version 1, the joiner shows what the source shows, also of keys the source lacks |
| Overtaking.LiveOvertakesSnapshot | nodes/main.go:1211-1265 | a complete session in which a live event overtakes its snapshot event and the joiner shows version 1 of 2 |
| Gossips.MergeNewest | nodes/main.go:488-499 | folding records into a view leaves, per id, one of the records offered and none newer |
| Gossips.MergeIsJoin | nodes/main.go:488-499 | any order or duplication of the same records gives the same view |
| Gossips.MergeBatches | nodes/main.go:475-499 | two batches one after the other give the view of one batch |
| Gossips.MergesCommuteIff | nodes/main.go:488-499 | two records of an unknown node commute if and only if id fixes the static fields and (id, stamp) the state |
| Gossips.CountsCoverView | gossip/gossip.go:74-88 | the records in each state add up to the size of the view |
| Gossips.InStateUpserted | gossip/gossip.go:57-72 | replacing one record moves the recount by one out of the old state and one into the new |
| Gossips.Gossip.constructor | gossip/gossip.go:26-34 | a new gossip is empty and its counters agree |
| Gossips.Gossip.Get | gossip/gossip.go:36-44 | returns the stored record, nothing for an unknown id |
| Gossips.Gossip.Read | gossip/gossip.go:46-55 | returns a copy of the whole view |
| Gossips.Gossip.Upsert | gossip/gossip.go:57-72 | stores the record and keeps the incremental counters equal to a recount in every state |
| Gossips.Gossip.Size | gossip/gossip.go:74-78 | the number of records, which is the sum of the counters |
| Gossips.Gossip.NumNodeInState | gossip/gossip.go:80-88 | the counter equals the number of stored records in the state |
| Membership.StepSound | nodes/main.go:424-506 | creation, publication, merge and state changes keep every record truthful, and no view goes back |
| Membership.RunSound | nodes/main.go:424-506 | every reachable cluster is sound under lost, repeated and reordered gossip |
| Membership.ViewsAreTruthful | nodes/main.go:424-506 | every record held about p was published by p and is not ahead of p's real state |
| Membership.ViewsNeverRegress | nodes/main.go:488-499 | over any stretch of a run no view forgets a node and no record in it loses time or state rank |
| Membership.StampsNeverRegress | nodes/main.go:424-506 | whatever seeds newcomers ask, no view forgets a node, no record in it goes back in time, and none held of p is stamped later than p's latest |
| Membership.StableTopology | nodes/main.go:333-351 | whatever seeds newcomers ask, a node that joined a cluster and is past JOINING knew the same set of ids at its last three checks |
| Membership.CheckRaisesIff | nodes/main.go:333-351 | a JOINING node's check raises it if and only if the ids it knows are those it knew at its last two checks |
| Membership.MetadataSafeIff | nodes/main.go:321-331 | with the clock moving between creation and first record, a node's metadata is one of its records, and stands up to all of them, if and only if the node is in the state it was created in |
| Membership.CreateSoundIff | nodes/main.go:166-242 | admitting a newcomer keeps a sound cluster sound if and only if every seed asked is in the state it was created in |
| StaleSeed.StaleSeedRegresses | nodes/main.go:321-331 | a run in which a newcomer's record of its seed was never published and falls from BOOTSTRAPPING to JOINING |
| Ring.HashKey | helper/helper.go:31-36 | a token is below the modulus |
| Ring.TokenOfDigest | helper/helper.go:31-36 | a key's token is its digest, the largest digest wrapping to 0 |
| Ring.GetNode | helper/helper.go:80-95 | the first AVAILABLE node whose end exceeds the token, or the no-node error |
| Ring.GetNodeByToken | helper/helper.go:123-134 | the first AVAILABLE node whose end is at least the token, or the no-node error |
| Ring.GetNNode | helper/helper.go:38-73 | the owner and the nodes after it with wrap-around, or the error of the check that failed |
| Ring.ReplicaWindow | helper/helper.go:38-73 | for any list with an owner, the window is headed by what GetNode returns, continues with ring successors, and takes no position twice |
| Ring.LookupSucceedsIff | helper/helper.go:80-95 | a token has an owner if and only if some AVAILABLE node ends above it |
| Ring.RingCoveredIff | helper/helper.go:31-73 | every token a key can have is owned if and only if some AVAILABLE node has the largest end |
| Ring.CoveredRingOwnsEveryKey | helper/helper.go:31-73 | with such a node no key's lookup fails, whatever the digest |
| Ring.MinimalHandoff | helper/helper.go:80-134 | with only the AVAILABLE nodes' ends distinct, a node becoming AVAILABLE changes the owner of exactly the tokens below its end with no AVAILABLE end in between, from the node it asked to itself, and they pass its filter |
| Ring.WrappedRequestAsksFirstAvailable | nodes/main.go:356-358 | a newcomer with the largest end asks the first AVAILABLE node of the list |
| Ring.SortedFindsNearest | helper/helper.go:120-134 | on a sorted list the lookup finds the nearest AVAILABLE node |
| Ring.AskedIsNearestIff | nodes/main.go:356-358 | the lookup in some other order finds the node the sorted list gives if and only if it finds a nearest one |
| Ring.AnyOrderFindsNearestIff | nodes/main.go:356-358 | every enumeration order finds the nearest AVAILABLE node if and only if all candidates end alike |
| Routing.MapToArr | helper/helper.go:101-107 | every value once per key, in an arbitrary order of the keys |
| Routing.SortNodeInPlace | helper/helper.go:152-158 | the array ends up ordered by end and holds the same nodes |
| Routing.RingOrder | nodes/main.go:659-663 | enumerating and sorting a view gives its records in ring order |
| Routing.SortedViewUniqueIff | helper/helper.go:152-158 | all sorted listings of a view agree if and only if no two of its records share an end |
| Routing.OwnersAgree | nodes/main.go:659-676 | with only the AVAILABLE nodes' ends distinct, every sorted listing of a view gives the same owner |
| Routing.RedirectReachesOwner | nodes/main.go:659-728 | with only the AVAILABLE nodes' ends distinct, the node a request is redirected to, having the same view, considers itself the owner |
| Routing.PostOutcomeIff | nodes/main.go:639-787 | which of invalid quorum, no owner, redirect, too few AVAILABLE nodes and stored becomes of a write, each if and only if; stored exactly at the owner, with a valid quorum and as many AVAILABLE nodes as replicas |
| Routing.GetOutcomeIff | nodes/main.go:888-1007 | which of invalid quorum, too few nodes, no owner, local store, owner and replicas a read comes to, each if and only if; quorum -1 asks the owner and quorum 0 the node itself |
| Routing.AskedOwnerServes | nodes/main.go:926-1002 | an owner asked by a node with the same view serves the read from its own store |
| Routing.StoredButFailedIff | nodes/main.go:738-787 | a write is stored and yet answered with an error if and only if the owner knows exactly as many nodes as replicas, all AVAILABLE, and the quorum is valid |
| Routing.ReadsAskWrittenReplicas | nodes/main.go:905-927 | reads and writes of a key compute the same replicas: as many as configured, distinct, without the owner |
| Routing.PickNRandom | helper/helper.go:243-253 | the first n elements in the order of the permutation |
| FanOut.RunInvariant | helper/helper.go:177-241 | at every point of every schedule the channel, the workers and the counter agree |
| FanOut.SendNeverBlocks | helper/helper.go:192-217 | a worker about to send always finds room in the channel |
| FanOut.SelfCancelMeansEnough | helper/helper.go:202-227 | each worker contributes at most once, and the call cancels itself only with minSuccess successes in the channel |
| FanOut.SelfCancelIff | helper/helper.go:209-227 | the call has cancelled itself if and only if a counted success met minSuccess in 32 bits or the zero check found 0; it is over only after that check |
| FanOut.ReachedIff | helper/helper.go:209-213 | in the 32-bit range a counted success has met minSuccess if and only if there is one and there are at least minSuccess |
| FanOut.StopsAtMinSuccess | helper/helper.go:173-241 | a run with two workers and minSuccess 1 that ends with the first success alone |
| FanOut.StopsAtTimeout | helper/helper.go:173-241 | a run whose timeout fires before its worker answers and that ends with no result |
| FanOut.AllResultsOrEnough | helper/helper.go:173-241 | when neither timeout nor parent fires, there is one result per work item or at least minSuccess successes |
| Quorum.Float64Exact | nodes/main.go:1025-1026 | up to 2^53 the conversion to floating point changes no version |
| Quorum.Float64Nearest | nodes/main.go:1025-1026 | the conversion rounds to the nearest multiple of the spacing, ties to an even one |
| Quorum.OlderReplyWins | nodes/main.go:1023-1030 | of replies with versions 2^53 and 2^53 + 1, in this order, the read returns the older |
| Quorum.FoldNewestIff | nodes/main.go:1020-1030 | every read of versions up to a bound returns the newest reply if and only if the bound is at most 2^53 |
| Quorum.LatestReply | nodes/main.go:1020-1030 | the handler's loop computes the fold over the replies, failed replicas skipped |
| Quorum.FoldIsNewest | nodes/main.go:1020-1030 | up to 2^53 the fold is the first reply carrying the largest version, and is empty only when nobody replied |
| Quorum.AckKeepsVersionIff | nodes/main.go:525-556 | a replica that acknowledged version w shows at least w if and only if it held the key or w is at most 1 |
| Quorum.AckedStaysVisible | store/data_store.go:101-147 | an acknowledged version is visible at the replica ever after |
| Quorum.OverlapIff | nodes/main.go:625-655 | any a acknowledging and r asked replicas out of n share one if and only if a + r > n |
| Quorum.DefaultQuorumsMayMiss | nodes/main.go:516-522 | for every replica count from 1 on the default quorums allow a read that misses every acknowledging replica |
| Quorum.QuorumOverlap | nodes/main.go:804-812 | whatever the write's schedule, a read with a + R > RC asks some acknowledging replica and returns the written version or a newer one, with the value some asked replica shows under it |
| Coordinator.FindInsertIndex | cluster/coordinator/coordinator.go:172-187 | the first position whose end is above the token, the duplicate error when one equals it, the no-node error when none is |
| Coordinator.AddOutcomeIff | cluster/coordinator/coordinator.go:57-76 | on a whole ring an addition succeeds if and only if no node has the end, an empty ring taking only the largest; a taken end is reported as such |
| Coordinator.RemoveOutcomeIff | cluster/coordinator/coordinator.go:189-207 | a removal fails if and only if no node has this end and host, and panics if and only if that node is the only one |
| Coordinator.Cluster.constructor | cluster/coordinator/coordinator.go:38-44 | a new cluster has no nodes |
| Coordinator.Cluster.AddNode | cluster/coordinator/coordinator.go:57-93 | the in-place shift inserts the node at its position; any error leaves the array as it was |
| Coordinator.Cluster.RemoveNode | cluster/coordinator/coordinator.go:189-214 | drops the first node with this end and host, stretching its predecessor if it was last; a missing node leaves the array as it was; the sole node's removal empties it and panics |
| Coordinator.Cluster.LookUp | cluster/coordinator/coordinator.go:165-167 | returns the owner of the token |
| Coordinator.RunsKeepRing | cluster/coordinator/coordinator.go:57-93 | after any operations ends are strictly increasing, the last is 2^64-1, and insertion never hits the no-node error |
| Coordinator.OwnerCoversToken | cluster/coordinator/coordinator.go:165-167 | a node owns a token if and only if the token lies from the end before it up to its own |
| Coordinator.AddTakesOver | cluster/coordinator/coordinator.go:57-93 | a new node takes exactly the tokens below its end that its successor owned |
| Coordinator.RemoveHandsToSuccessor | cluster/coordinator/coordinator.go:189-214 | removing a node that is not last hands its tokens, and no others, to its successor |
| Coordinator.RemoveHandsToPredecessor | cluster/coordinator/coordinator.go:202-207 | removing the last node hands its tokens, and no others, to its predecessor |
| Coordinator.NothingOwnedIff | cluster/coordinator/coordinator.go:165-167 | every lookup fails if and only if no node is AVAILABLE with an end above 0, as where nobody gives the nodes a state |
| Coordinator.AddThenRemove | cluster/coordinator/coordinator.go:57-214 | adding a node and removing it restores the array exactly |
| Nodes.Node.constructor | nodes/main.go:217-242 | AVAILABLE with no seeds and JOINING otherwise, with its own record in its view: the cluster machine's newcomer |
| Nodes.Node.GetMetaDataNode | nodes/main.go:321-331 | answers the creation stamp with the present state, the cluster machine's metadata |
| Nodes.Node.ChangeStateToBootstrappingIfReady | nodes/main.go:333-351 | a JOINING node records its view's size and rises exactly when the last three agree, the cluster machine's check |
| Nodes.Node.MergeRecord | nodes/main.go:488-499 | get, compare, upsert is the cluster machine's merge of one record |
| Nodes.Node.PostGossip | nodes/main.go:475-506 | the view becomes the fold of the batch, and the readiness check runs once after it |
| Nodes.Node.PublishSelf | nodes/main.go:429-438 | the node's record in its own view carries the new stamp and its present state, the cluster machine's publication |
| Nodes.Node.BroadcastGossip | nodes/main.go:424-457 | every other known host is sent the whole view, the node itself is not; a node without id sends nothing |
| Nodes.Node.FindSnapshotSource | nodes/main.go:353-363 | the node asked is the lookup of end + 1, wrapped, in some enumeration of the view |
| Nodes.Node.ApplySnapshot | nodes/main.go:397-401 | the entries of one snapshot event are put one after the other under their own versions |
| Nodes.Node.HandleEvent | nodes/main.go:395-414 | one turn of the consuming loop is one consuming step of the session machine, and the snapshot's end the serving step of the cluster machine |
| Nodes.Node.ConsumeStream | nodes/main.go:395-414 | keys the node held gain exactly what arrived, others hold exactly that, and it is AVAILABLE if the snapshot was completed |
| Nodes.Node.PostReplicaData | nodes/main.go:525-556 | a replica commits the version it is sent, marked as a replica's |
| Nodes.Node.PostData | nodes/main.go:588-831 | a client write follows the routing decision: rejected, redirected, stored and replicated, or stored and then failed |
| Nodes.Node.RoutePost | nodes/main.go:639-748 | the checks before storing, in the code's order, give the decision's early answer |
| Nodes.Node.StoreAtOwner | nodes/main.go:757-795 | the owner stores first and then takes the window after itself as replicas |
| Nodes.Node.GetData | nodes/main.go:853-1007 | a client read is rejected, served locally, sent to the owner, or sent to as many picked replicas as asked for |
| Guarantees.AskedIsOldOwnerIff | nodes/main.go:353-363 | the node asked is the owner of the tokens that change hands if and only if the enumeration led to the nearest AVAILABLE node |
| Guarantees.MovedKeysPass | nodes/main.go:1164-1167 | every key that changes hands passes the snapshot filter |
| Guarantees.ForeignKeysStay | nodes/main.go:1164-1184 | nothing of a key whose token lies above the joiner's end is streamed to it |
| Guarantees.HandoffKeepsData | nodes/main.go:353-417 | a key whose owner changes reads the same in the new owner's store as in the old owner's, once the session with the node asked has drained in order |
| Guarantees.WriteAwaitsQuorum | nodes/main.go:574-582 | undisturbed, a stored write waits for every replica's result or for as many acknowledgements as its quorum asks for; a negative quorum waits for every replica |
| Guarantees.QuorumReadSeesWrite | nodes/main.go:588-1058 | under equal views a read whose quorum, with the acknowledgements, exceeds the replicas returns the written version or a newer one, as some asked replica shows it |

## Left out

- HTTP, JSON and server-sent-event encoding, routing tables, tracing, logging, command-line flags, and the body and quorum parse errors: the stream is a sequence of events, a request is a call, a reply is a value.
- The digest behind `HashKey`: it is a function parameter, reduced by the modulus in the code.
- Clocks: stamps are natural numbers, non-decreasing in each node's own publication order; timers and timeouts are steps that may happen at any moment.
- `GetNodeForReplication`, the coordinator's HTTP server and broadcast, and `wal/wal.go`: unused, plumbing, or a stub.
- Node states are the three named ones and the empty one; the code would carry any string.
- Replica counts are natural numbers: a negative `replicacount` flag, the exit on conflicting replica counts, and the panic of `GetNNode` on a negative count are not modelled.
- The floating-point decoding of a seed's `EndOfKeyRange` and `ReplicaCount`: views start with the exact integers.
- Quorum.LatestReply: the answer when no replica replied is `Nothing`; the conversion of minus infinity, or of 2^64, back to an unsigned integer is up to the platform.
- Quorum.QuorumOverlap: versions are at most 2^53; an acknowledgement means that the replica stored the write; the client code ignores the HTTP status of a replica's answer. Reads and writes are under the same view.
- Membership.RunSound: newcomers ask only seeds that are still in the state they were created in (`Membership.CreateSoundIff`); merging one record, and building and publishing a node's own record, are one step each although the code takes the view's lock more than once.
- Streams.Next: one session per source, so neither a second session nor the debug snapshot endpoint replaces or cancels the hook; the joiner takes no writes from elsewhere while it consumes; a receive and the send it completes, and applying one event, are one step.
- HookCalls.HookOutcomeIff: a panic of the ticker, whose reset function may be unset, and a writer's panic outside a request handler end the process, and the run with it; inside a handler the web framework recovers the panic, and the model goes on.
- Guarantees.HandoffKeepsData: the lookup led to the nearest AVAILABLE node (`Guarantees.AskedIsOldOwnerIff`); writes the old owner takes after the hook's cancellation, and writes whose hook call failed or still waits, are excluded by `Bootstrap.Drained`.
- Linearizability, and versions unique across an owner change: the code provides neither.
- Coordinator.Cluster.AddNode: the node array is a sequence, so the aliasing of the slice handed out by `Info` is not captured.
- The sorting algorithm of the library: only its contract is used (same elements, ordered, ties in any order); `Sorting.SortSlice` is one implementation.

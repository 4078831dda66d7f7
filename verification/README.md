# A verified model of the Riak Go client

This project models the stateful parts of the Riak client for Go and proves what every run of them
keeps.  Five components are covered; `Common.dfy` holds what they share.

* **Connection pool** (`Queue.dfy`, `Pool.dfy`, `PoolRuns.dfy`, `ConnectionManager.dfy`, `Node.dfy`):
  a bounded FIFO queue with a visit/requeue/break iterator, the pool built on it with its saturating
  counter, idle expiry and shutdown, and the node that is the pool's only client.
* **Cluster** (`ClusterNodes.dfy`, `RoundRobin.dfy`, `Scheduler.dfy`, `ClusterExecute.dfy`): the life of
  the nodes through Start, Stop, AddNode and RemoveNode, the round-robin node choice, the retry loop,
  and the command queue.
* **Map operations** (`MapOps.dfy`, `MapTree.dfy`, `MapCommute.dfy`, `MapCompile.dfy`, `MapRemoves.dfy`,
  `MapResponse.dfy`): the tree of edits that a caller builds through handles, which calls commute, its
  compilation to the wire message for every map iteration order, the check for removals, and the
  parsing of response maps.
* **Framing and streamed responses** (`Framing.dfy`, `ListKeys.dfy`): length-prefixed messages read
  through a reused buffer, and a key listing that arrives in chunks.
* **Object content** (`Objects.dfy`): the multimap of secondary indexes flattened to pairs and back.

How the source's constructs are rendered:

* A Go closure over mutable variables is a function that takes and returns those variables
  (`Queues.Visitor`); the queue's `Iterate` is proved for every such callback.
* Objects with an identity that several parties point to (connections, nodes of a cluster,
  MapOperation objects) are indices into an explicit store, so that aliasing, leaks and dead handles can
  be stated.  Objects with one owner are classes whose methods update their fields; each method is
  equated with a function on values, and the theorems about runs are about those functions.
* Goroutines interleave between steps: a step is one method of the pool, the node or the cluster, except that
  `get` is two steps, in the pool and in the node, that a command's execution is split at the network call, and
  that a retry loop is one step per iteration.  Time, dialing, network errors, node answers and callbacks are
  inputs, quantified over.
* Go ranges over maps in an unspecified order; the loops pick keys arbitrarily (`:|`).

Main results: `PoolRuns.EveryRunIsSafe`, `PoolRuns.GetExact`, `PoolRuns.ExpireExact`,
`PoolRuns.StartExact`, `ClusterNodes.StartUpExact`, `ClusterNodes.EveryClusterRun`,
`ClusterNodes.StopIsClean`, `RoundRobin.HaltsIff`, `Scheduler.EveryCommandAccounted`,
`Scheduler.QueuedUntilDue`, `ListKeys.FailureFromWire`, `MapOps.FieldHistory`, `MapTree.CallEditsAtPath`,
`MapCommute.CallsCommute`, `MapCommute.RemovedMapStaysDetached`, `MapCompile.Populate`,
`MapCompile.CompileHistory`, `MapRemoves.BuiltWithoutContext`, `MapResponse.ParseInvertsEncoding`,
`Framing.MessagesReadBack`, `ListKeys.ListingCompleteIff`, `ListKeys.StreamedFromWire`,
`Objects.RoundTrip`.

Where the code does not do what one would expect, the code is followed and the exact condition is proved:

* Round robin (node_manager.go:50-77): if every node declines, the loop ends only if the start index is
  in 1..n and the node before it is not skipped; a fresh manager (index 0) goes round for ever
  (`RoundRobin.HaltsIff`, `RoundRobin.FreshManagerMayNotHalt`).
* A command that is between the two halves of `get` when its node is stopped gets a nil connection without an
  error, and execute panics on it (node.go:196-198); nothing else leads there (`Nodes.DialKeeps`,
  `Nodes.StopWhileDialingPanics`, `ClusterNodes.EveryClusterRun`).
* A connection given to `remove` after shutdown (connection_manager.go:324-330) stays open and counted; the counter
  of a stopped pool tells the connections held iff the run has no such step
  (`PoolRuns.CounterAfterShutdown`, `PoolRuns.RemoveAfterShutdownLeaks`).
* A command that the queue refuses (cluster.go:344-367, 376-383) is signalled twice
  (`Scheduler.RefusedIff`, `Scheduler.RefusedIsSignalledTwice`).
* Element removals in nested maps (crdt_commands.go:1302) pass Build without a context
  (`MapRemoves.BuiltWithoutContext`, `MapRemoves.NestedElementRemovalNeedsNoContext`).
* A read that is retried after losing bytes (connection.go:267-299) starts over in the middle of a
  message; errors are without effect iff they are temporary, not more than the retries, and none took a byte
  (`Framing.RetryIsHarmlessIff`, `Framing.RetryReadsBehindTheLoss`, `Framing.RetryCanLoseAlignment`).
* A list-keys frame without payload (kv_commands.go:917-919) ends the listing there, drops the keys
  collected so far and leaves later frames on the stream; a listing is complete iff no frame lacks a payload,
  or only the last one does and there were no keys; a streamed one iff no frame but the last lacks a payload
  (`ListKeys.ListingCompleteIff`, `ListKeys.StreamedCompleteIff`, `ListKeys.EmptyPayloadLosesKeys`).
* The microseconds of an object's modification time (object.go:108) are taken for nanoseconds; the time is right
  iff they are zero (`Objects.LastModifiedIsExactIff`).
* Removing a node that has been stopped already (cluster.go:256-260) is an error, but the node has left the list
  (`ClusterNodes.RemoveExact`).
* A frame of length zero (error.go:36-37) panics in the response loop (`ListKeys.ZeroLengthPanics`).

## Model

| member | source | states |
|---|---|---|
| `Queues.Queue.constructor` | queue.go:25-33 | a new queue is empty, open and has the given capacity; size zero is the caller's error |
| `Queues.Queue.Enqueue` | queue.go:35-42 | exactly when a value is taken, refused as full, or panics (nil value, destroyed queue), and the new contents |
| `Queues.Queue.DoEnqueue` | queue.go:44-51 | the same without the nil check |
| `Queues.Queue.Dequeue` | queue.go:53-70 | FIFO head; nil on an empty queue, an error on an empty destroyed one |
| `Queues.Queue.Iterate` | queue.go:72-102 | for any stateful callback: on an open queue, no error, requeueing always finds room, the unvisited suffix is left, followed by the requeued items; on a destroyed one, it ends or panics at the first requeue; within the initial length in both cases |
| `Queues.Queue.Count` | queue.go:110-114 | the number of items, which fits a uint16 |
| `Queues.Queue.Destroy` | queue.go:116-118 | the queue is closed; a second destroy panics |
| `Queues.IterateVisitsPrefix` | queue.go:72-102 | whatever the callback does, it is offered a prefix of the queue once each in FIFO order and never nil, only the last offer may break, and what is kept is what it asked to requeue, in visit order |
| `Queues.DestroyedRunIff` | queue.go:72-102 | on a destroyed queue an iteration panics iff the callback asks to put something back, and otherwise goes as on an open one |
| `Pools.CloseAllExact` | connection.go:157-164 | closing connections changes the sockets of exactly those and nothing else |
| `PoolRuns.FirstAvailableMeaning` | connection_manager.go:288-297 | every connection before the position found is unavailable and the one at it is available |
| `PoolRuns.ScanExact` | connection_manager.go:281-306 | the scan of get takes the first available idle connection, closes and uncounts exactly the dead ones before it, leaves the rest in order |
| `PoolRuns.GetExact` | connection_manager.go:244-310 | get as a closed formula: first available, else all-in-use iff clients hold max, else a fresh connection or the dial error; never a nil connection without error |
| `PoolRuns.GetIsUsable` | connection_manager.go:244-310 | a connection that get returns has an open socket, is active and is held by nobody else; nothing is dialed while the queue has such a connection |
| `PoolRuns.FirstStaleMeaning` | connection_manager.go:360-362 | the expired connections are stale, and all stale ones if the floor is not reached |
| `PoolRuns.ExpireExact` | connection_manager.go:346-378 | a tick closes and uncounts exactly the first stale connections above the floor, keeps every other exactly once, never goes below the floor, ends at the floor or with only usable, recent connections |
| `PoolRuns.ExpireByTime` | connection_manager.go:346-378 | what a tick closes was closed, inactive or idle for the timeout; above the floor everything left is open, active and was used less than the timeout ago |
| `PoolRuns.StopExact` | connection_manager.go:195-238 | stop drains the queue in spite of its early exit, closing every idle connection; a pool that is not running is not stopped |
| `PoolRuns.PutKeeps` | connection_manager.go:312-322 | put keeps the invariant and its enqueue is always accepted |
| `PoolRuns.RemoveKeeps` | connection_manager.go:324-330 | remove keeps the invariant, before and after shutdown |
| `PoolRuns.CreateKeeps` | connection_manager.go:244-263 | create keeps the invariant |
| `PoolRuns.ScanKeeps` | connection_manager.go:281-306 | the scan of get keeps the invariant |
| `PoolRuns.ExpireKeeps` | connection_manager.go:346-378 | the expiry tick keeps the invariant |
| `PoolRuns.StartExact` | connection_manager.go:175-193 | a new pool starts with exactly the connections that its first min dials open, in that order, all idle, counted, open and active with their dial's time: min of them if no dial fails; a pool that is not new is not started |
| `PoolRuns.NewSystemStarts` | connection_manager.go:175-193 | the same for the pool and its clients, and ticks before the start change nothing |
| `PoolRuns.StartKeeps` | connection_manager.go:175-193 | start keeps the invariant for every outcome of the dials |
| `PoolRuns.FillIsClean` | connection_manager.go:180-189 | no round of the start loop meets a full queue or a saturated counter, whatever the dials do |
| `PoolRuns.PassesAreClean` | connection_manager.go:213-378 | no item of a pass of get, expiry or stop decrements the counter at zero |
| `PoolRuns.StopKeeps` | connection_manager.go:195-238 | stop reaches shutdown with the counter at the number of connections still held |
| `PoolRuns.DrainedIsIdle` | connection_manager.go:340-378 | after shutdown a late tick or scan does nothing, so it cannot send on the closed queue |
| `PoolRuns.StepKeeps` | connection_manager.go:175-378 | every step keeps: counter = idle + held + leaked <= max, idle distinct and disjoint from held, no open socket is lost, shutdown is drained |
| `PoolRuns.EveryRunIsSafe` | connection_manager.go:63-83 | over every run from a new pool the invariant holds, and no next step finds the queue full, saturates the counter or decrements it at zero, in any round of the start loop and at any item of the passes of get, expiry and stop |
| `PoolRuns.CounterAfterShutdown` | connection_manager.go:312-330 | in every run that ends in shutdown the counter exceeds the connections held by exactly those given to remove after shutdown, so it matches iff there were none; only these and the held ones are open |
| `PoolRuns.LateRemovesMeaning` | connection_manager.go:324-330 | there were none iff no removal is taken in a state past shutdown |
| `PoolRuns.RemoveAfterShutdownLeaks` | connection_manager.go:324-330 | a concrete run in which a connection removed after shutdown stays open and counted |
| `ConnectionManagers.RunGet` | connection_manager.go:283-299 | iterating with get's closure is the scan |
| `ConnectionManagers.RunExpire` | connection_manager.go:349-376 | iterating with the expiry closure is the expiry pass |
| `ConnectionManagers.RunStop` | connection_manager.go:213-228 | iterating with stop's closure is the draining pass |
| `ConnectionManagers.ConnectionManager.constructor` | connection_manager.go:152-168 | a new manager is an empty pool with a queue of max connections |
| `ConnectionManagers.NewConnectionManager` | connection_manager.go:122-169 | zero options become the defaults (1, 256, ten seconds); refused iff the minimum then exceeds the maximum; otherwise a new, empty pool |
| `ConnectionManagers.ConnectionManager.CreateConn` | connection_manager.go:244-263 | create in place, keeping the invariant |
| `ConnectionManagers.ConnectionManager.ScanConns` | connection_manager.go:281-306 | the first half of get in place |
| `ConnectionManagers.ConnectionManager.GetConn` | connection_manager.go:281-310 | get in place: a scan, then create if nothing was found |
| `ConnectionManagers.ConnectionManager.PutConn` | connection_manager.go:312-322 | put in place; always accepted |
| `ConnectionManagers.ConnectionManager.RemoveConn` | connection_manager.go:324-330 | remove in place |
| `ConnectionManagers.ConnectionManager.StartPool` | connection_manager.go:175-193 | start in place, with its loop; a new pool has exactly the connections that its first min dials open |
| `ConnectionManagers.ConnectionManager.StopPool` | connection_manager.go:195-238 | stop in place: shutdown, never the error state, queue empty and destroyed, counter = held |
| `ConnectionManagers.ConnectionManager.ExpireTick` | connection_manager.go:346-378 | the tick in place |
| `Nodes.LookKeeps` | node.go:184-189 | the state check and the first half of get keep the invariant and leave the node's state; a connection found is held by the caller |
| `Nodes.DialKeeps` | node.go:188-198 | the second half of get keeps the invariant, and the panic on a nil connection is reached iff the node has been stopped in between; an error starts health checking, and otherwise the node's state is unchanged |
| `Nodes.StopWhileDialingPanics` | node.go:188-198 | a concrete run (start, first half of get, stop, second half) that reaches the panic |
| `Nodes.AcquireKeeps` | node.go:183-198 | undisturbed, get keeps node and pool states together, delivers a connection or a reason, and the panic is not reached; without a connection health checking starts |
| `Nodes.AcquireByState` | node.go:183-198 | a running node holds a connection or has a reason, a health checking one declines, any other reports its state, both unchanged |
| `Nodes.FinishExact` | node.go:205-232 | after an answer or a Riak or client error the connection is queued again, open and counted; after a network error it is closed and uncounted, and a permanent one starts health checking; on a node stopped in the meantime it is closed and uncounted, or after a network error left as it is |
| `Nodes.NodeStepKeeps` | node.go:183-322 | commands, health checks, ticks and traffic keep the node's invariant and never take it in or out of service |
| `Nodes.HealthExact` | node.go:292-318 | a round leads to running iff the node was health checking and the check succeeded, and changes nothing else |
| `Nodes.StartNodeKeeps` | node.go:141-154 | a node starts iff it was just created, and then runs with a running pool |
| `Nodes.StartNodeOpens` | node.go:141-154 | a started node runs with exactly the connections that its first min dials open |
| `Nodes.StopNodeKeeps` | node.go:158-179 | a serving node stops cleanly: shutdown, idle connections closed, counter = connections held |
| `Nodes.PhaseOf` | connection_manager.go:175-238 | only start and stop change the pool's state |
| `Nodes.Node.constructor` | node.go:70-131 | a new node with a new pool |
| `Nodes.Node.DoHealthCheck` | node.go:238-246 | test-and-set of the health-checking state |
| `Nodes.Node.LookForConn` | node.go:184-189 | the state checks and the first half of get, in place |
| `Nodes.Node.DialConn` | node.go:188-198 | the second half of get, in place, with health checking on an error and the panic on a nil connection |
| `Nodes.Node.AcquireConn` | node.go:184-198 | execute up to the network call, in place and undisturbed; the panic is dead |
| `Nodes.Node.FinishConn` | node.go:205-232 | execute after the network call: put or remove, and health checking on a permanent network error |
| `Nodes.Node.Execute` | node.go:183-236 | the pair returned by execute and the new state, for every outcome and in every state of the node: not executed without error only when health checking |
| `Nodes.Node.HealthCheckRound` | node.go:292-318 | a health check only leads from health checking back to running |
| `Nodes.Node.Start` | node.go:141-154 | start in place |
| `Nodes.Node.StopNow` | node.go:158-179 | stop in place |
| `ClusterNodes.StartAllExact` | cluster.go:149-155 | Start succeeds iff the listed nodes are distinct and none was started before; then all run; other nodes are untouched |
| `ClusterNodes.StartAllPrefix` | cluster.go:149-155 | the loop starts the nodes in order, each with its dials, up to the first named twice or started before |
| `ClusterNodes.StartUpExact` | cluster.go:135-159 | Start by state: a created cluster runs afterwards, with all its nodes started, iff they are distinct and none was started before, and otherwise fails and stays created; a running one is left alone; any other fails |
| `ClusterNodes.StopAllExact` | cluster.go:196-201 | the loop of Stop stops every distinct serving node cleanly and touches no other |
| `ClusterNodes.StopIsClean` | cluster.go:163-221 | stopping a running cluster never panics, and every pool is closed, drained and counts only what is still held |
| `ClusterNodes.StopOnlyRunning` | cluster.go:163-166 | a cluster that is not running is not stopped: an error, and no change |
| `ClusterNodes.SwapOutMembers` | cluster.go:252-255 | swapping out the removed node drops exactly that node and keeps the list distinct |
| `ClusterNodes.AddExact` | cluster.go:224-242 | AddNode by state: a listed node is not added again; a node joins a running cluster, started, iff it was never started, and otherwise nothing changes; it joins any other cluster as it is |
| `ClusterNodes.RemoveExact` | cluster.go:245-265 | RemoveNode by state: an unlisted node is ignored; else exactly one entry leaves the list, and the node is stopped cleanly if in service, left alone if never started, and left alone with an error if stopped already |
| `ClusterNodes.AddKeeps` | cluster.go:224-242 | AddNode keeps the invariant |
| `ClusterNodes.RemoveKeepsCluster` | cluster.go:245-265 | RemoveNode keeps the invariant |
| `ClusterNodes.ClusterStepKeeps` | cluster.go:135-265 | every step keeps the invariant, and one panics iff it is the second half of a get on a stopped node |
| `ClusterNodes.EveryClusterRun` | cluster.go:135-265 | in every run, running implies distinct nodes that each run or health-check with a running pool; a step panics iff it is the second half of a get on a stopped node |
| `ClusterNodes.NodeCluster.constructor` | cluster.go:76-126 | a cluster over any list of fresh nodes, possibly with repetitions |
| `ClusterNodes.NodeCluster.StartCluster` | cluster.go:135-159 | Start in place, with its loop, equal to the function of StartUpExact |
| `ClusterNodes.NodeCluster.StopCluster` | cluster.go:163-221 | Stop in place, with both loops; its panic is unreachable |
| `ClusterNodes.NodeCluster.Add` | cluster.go:224-242 | AddNode in place |
| `ClusterNodes.NodeCluster.Remove` | cluster.go:245-265 | RemoveNode in place, with the swap in the slice |
| `RoundRobin.NodeManager.constructor` | node_manager.go:28-31 | a fresh manager has index zero |
| `RoundRobin.NodeManager.ExecuteOnNode` | node_manager.go:35-80 | the loop ends with the first round that executes or gives up, returns that round's answer and leaves the index behind its node; with several nodes the previous one is never asked, a single node is asked every round |
| `RoundRobin.CycleVisitsEachOnce` | node_manager.go:52-56 | n rounds visit every list position exactly once |
| `RoundRobin.HaltsIff` | node_manager.go:50-77 | the loop ends iff some unskipped node executes or the start index is in 1..n with an unskipped node before it; in the latter case within n rounds |
| `RoundRobin.PreviousNodeIsPassedOver` | node_manager.go:58-61 | with several nodes no round ends at the previous node; a single node ends a round iff it executes or the start index is 1 |
| `RoundRobin.FreshManagerMayNotHalt` | node_manager.go:50-77 | a fresh manager whose nodes all decline has no last round |
| `RoundRobin.GivingUpMeansAllDeclined` | node_manager.go:59-76 | not executed is returned only after n rounds in which every unskipped node was asked once and declined |
| `RoundRobin.OneRoundPerCall` | node_manager.go:64-68 | with executing nodes a call takes one round and leaves an index in 1..n |
| `RoundRobin.HitsExact` | node_manager.go:52-56 | how often each position is served after m calls |
| `RoundRobin.LoadIsBalanced` | node_manager.go:33-35 | calls go round the list, per-node counts differ by at most one, the index stays in 1..n |
| `RoundRobin.ServeCalls` | node_manager.go:33-80 | repeated calls of ExecuteOnNode on executing nodes: the index and the counts per node are those of the closed form and differ by at most one |
| `Scheduler.TickKeeps` | cluster.go:394-419 | a tick launches exactly the due commands, leaves the others queued, in order, and keeps the invariant |
| `Scheduler.WaitingMembers` | cluster.go:407-415 | the commands requeued by a tick are the queued ones that are not due |
| `Scheduler.WaitingInOrder` | cluster.go:407-415 | they are requeued in their old order |
| `Scheduler.LaunchedMembers` | cluster.go:407-411 | the commands launched by a tick are the due ones, each with its full number of tries |
| `Scheduler.StopSignalsQueued` | cluster.go:172-192 | Stop shuts the scheduler down, empties the queue, signals each queued command exactly once with an error, and no other |
| `Scheduler.OfferKeeps` | cluster.go:370-385 | enqueueing keeps the invariant |
| `Scheduler.QueuedUntilDue` | cluster.go:370-411 | a command queued until a time is launched by a tick after it, with all its tries, and kept by a tick before it; no other command's time changes |
| `Scheduler.SchedStepKeeps` | cluster.go:163-426 | every step keeps: an accepted command is executing, queued or signalled, in exactly one of them; the queue is distinct and within its depth; tries never exceed the configured attempts |
| `Scheduler.EveryCommandAccounted` | cluster.go:268-426 | in every run each command is accounted for, signalled at most once or twice iff refused, and after Stop with nothing executing every accepted command has been signalled |
| `Scheduler.RefusedIff` | cluster.go:370-385 | a command is refused, and signalled twice with an error, iff the queue is full or the cluster is shut down |
| `Scheduler.SubmitToQueue` | cluster.go:301-385 | a new single-try command that no node executes is queued unsignalled if there is room, else signalled twice, whatever else is executing |
| `Scheduler.RefusedIsSignalledTwice` | cluster.go:344-385 | a concrete run in which the second command offered to a queue of depth one is signalled twice |
| `ClusterExecute.Async.constructor` | async.go:25-34 | a fresh Async has no signal and no error |
| `ClusterExecute.Async.Done` | async.go:63-79 | one signal more; a nil error does not clear an earlier one |
| `ClusterExecute.Execute` | cluster.go:301-368 | at most executionAttempts node calls (one if not retryable), only the last of which succeeds or parks the command; the exact number of signals; Error is set iff the last call did not succeed, and is untouched by execute when the command is parked |
| `ClusterExecute.IterationOutcome` | cluster.go:321-364 | one iteration signals once, parks or retries, and sets the error exactly when it ends without success |
| `ClusterExecute.RetriesExact` | cluster.go:312-364 | a submitted command whose node calls all fail makes exactly the configured number of calls, one if it cannot be retried, and is then signalled once with an error |
| `ClusterExecute.RunTick` | cluster.go:397-417 | iterating with the tick's closure launches the due and keeps the waiting commands |
| `ClusterExecute.RunStop` | cluster.go:178-187 | iterating with Stop's closure signals all queued commands |
| `ClusterExecute.DoneTwice` | cluster.go:344-367 | signalling in enqueueCommand and again in execute counts two |
| `ClusterExecute.CommandQueue.constructor` | cluster.go:113-122 | an empty command queue of the configured depth |
| `ClusterExecute.CommandQueue.EnqueueCommand` | cluster.go:370-385 | enqueueCommand and the end of execute in place, equal to the function of QueuedUntilDue and RefusedIff; a destroyed queue is never sent to |
| `ClusterExecute.CommandQueue.TickQueue` | cluster.go:394-423 | a tick in place |
| `ClusterExecute.CommandQueue.StopQueue` | cluster.go:163-192 | the command part of Stop in place |
| `MapOps.ApplyKeeps` | crdt_commands.go:1157-1297 | a call keeps the objects a forest, no field of one type both removed and updated, recorded set edits non-empty |
| `MapOps.EveryHistoryOk` | crdt_commands.go:1139-1297 | the same after every sequence of calls on any handles |
| `MapOps.EntryStep` | crdt_commands.go:1157-1297 | a call takes its field's entry from the meaning of the calls so far to that of one call more |
| `MapOps.EntryOther` | crdt_commands.go:1157-1297 | a call leaves every other field's entry alone |
| `MapOps.FieldStep` | crdt_commands.go:1157-1297 | one event takes every field's entry from the meaning of its calls so far to that of its calls then |
| `MapOps.FieldHistory` | crdt_commands.go:1157-1297 | after any calls a field's entry is: nothing, removed if that came last, else the calls since the last removal: wrapped sum, element lists in call order, last register or flag |
| `MapOps.CounterHistory` | crdt_commands.go:1157-1180 | a counter records the sum of its increments since the last removal, exactly if that fits an int64 and otherwise off by a multiple of 2^64 |
| `MapOps.OtherCallsDoNotMatter` | crdt_commands.go:1157-1297 | histories with the same calls on a field give the same entry, however interleaved; the contents of a nested map are in MapCommute |
| `MapOps.Wrap64Exact` | crdt_commands.go:1165 | wrapping subtracts a multiple of 2^64, lands in the int64 range, and leaves an int64 alone |
| `MapOps.Wrap64Add` | crdt_commands.go:1165 | wrapping at each step is wrapping the sum |
| `MapOps.Operations.constructor` | crdt_commands.go:1139-1155 | no objects yet |
| `MapOps.Operations.New` | crdt_commands.go:1139-1155 | a new, empty operation |
| `MapOps.Operations.Record` | crdt_commands.go:1157-1297 | each of the ten recording methods in place |
| `MapOps.Operations.Nested` | crdt_commands.go:1269-1285 | Map in place: the existing nested operation or a new one |
| `MapTree.SiblingsDisjoint` | crdt_commands.go:1269-1297 | no object is reachable through two children of one operation |
| `MapTree.ReachesFollow` | crdt_commands.go:1269-1285 | an object below an operation lies at the end of a path of names |
| `MapTree.DetachedCallsAreInvisible` | crdt_commands.go:1288-1297 | a call on an object outside the tree, such as a handle to a removed map, does not change the tree |
| `MapTree.CallAtRoot` | crdt_commands.go:1157-1297 | a call on an operation edits its tree at the root only |
| `MapTree.ReturnedHandle` | crdt_commands.go:1269-1285 | Map returns the handle at its name, of the nested operation as it was or of an empty one; every other call returns its receiver |
| `MapTree.CallEditsAtPath` | crdt_commands.go:1157-1297 | a call through a handle edits the tree at the handle's place and nowhere else |
| `MapCommute.EditsCommute` | crdt_commands.go:1157-1297 | two edits of different fields of one operation can be made in either order |
| `MapCommute.UpdatesCommute` | crdt_commands.go:1157-1297 | edits of different fields of a tree commute iff neither makes the very map, not there before, that the other is about |
| `MapCommute.FollowStable` | crdt_commands.go:1269-1297 | a call leaves a handle into the tree at its place unless it drops a map on the way there |
| `MapCommute.CallAfterCall` | crdt_commands.go:1157-1297 | two calls in sequence edit the tree at the two places the handles had before, even if the first removes the second |
| `MapCommute.CallsCommute` | crdt_commands.go:1157-1297 | calls on different fields, through any two handles, inside or outside the tree, above or below each other, give the same tree in either order, nested contents included, whatever objects they allocate |
| `MapCommute.StaysUnreached` | crdt_commands.go:1269-1297 | no call brings an object into a tree it is outside of |
| `MapCommute.ChildOfDetached` | crdt_commands.go:1269-1285 | a nested operation made through a handle outside a tree is outside it too |
| `MapCommute.DetachedForever` | crdt_commands.go:1288-1297 | after any later calls on any handles a detached object is still outside and calls on it are not seen |
| `MapCommute.DropDetaches` | crdt_commands.go:1288-1297 | removing a map puts its operation and all below it outside every tree around it |
| `MapCommute.RemovedMapStaysDetached` | crdt_commands.go:1288-1297 | the handle of a removed map and all handles below it are dead: after any later calls, a call on one is not seen in the tree |
| `MapCompile.EmitRemoves` | crdt_commands.go:1009-1043 | one remove loop emits each name once, in any order |
| `MapCompile.EmitCounters` | crdt_commands.go:1046-1060 | each counter update once |
| `MapCompile.EmitAdds` | crdt_commands.go:1061-1077 | each set's additions once, in their order |
| `MapCompile.EmitElementRemoves` | crdt_commands.go:1078-1094 | each set's element removals once, in their order |
| `MapCompile.EmitRegisters` | crdt_commands.go:1095-1105 | each register once |
| `MapCompile.EmitFlags` | crdt_commands.go:1106-1122 | each flag once |
| `MapCompile.EmitNested` | crdt_commands.go:1123-1135 | each nested operation once, compiled recursively |
| `MapCompile.Populate` | crdt_commands.go:1007-1136 | for every iteration order a strict reader recovers exactly the tree of edits, at every depth, so nothing is lost, repeated or suppressed by the removal gate |
| `MapCompile.TreeMeansHistory` | crdt_commands.go:1157-1297 | the tree built by any calls has at every path just the meaning of the calls on each field through that handle |
| `MapCompile.CompileHistory` | crdt_commands.go:1007-1136 | from calls to the wire: the message read back says at every path and field the meaning of the calls made there, and nothing at other places |
| `MapCompile.UpdateMapCommand.constructor` | crdt_commands.go:946-953 | a command without request |
| `MapCompile.UpdateMapCommand.ConstructPbRequest` | crdt_commands.go:960-968 | whatever an earlier attempt left, the request is the operation exactly once |
| `MapRemoves.HasRemovesIff` | crdt_commands.go:1299-1320 | hasRemoves(false) iff some operation in the tree has a field removal |
| `MapRemoves.WireHasIff` | crdt_commands.go:1007-1136 | a compiled message asks for a removal, on top or at any depth, iff the operation records one there |
| `MapRemoves.BuiltWithoutContext` | crdt_commands.go:1472-1492 | built without context: no field removal at any depth, no element removal on top; element removals at all iff a nested operation records one |
| `MapRemoves.ContextRequiredIff` | crdt_commands.go:1482-1484 | Build asks for a context iff there is none and the tree has a field removal or the top a set element removal |
| `MapRemoves.BuildOutcome` | crdt_commands.go:1472-1492 | which error Build gives when, and that a built command carries the given operation and context |
| `MapRemoves.NestedElementRemovalNeedsNoContext` | crdt_commands.go:1299-1320 | a concrete operation that removes a nested set element and builds without context |
| `MapResponse.ParsePbResponse` | crdt_commands.go:1322-1356 | the loop terminates on every entry list and computes the parsed map |
| `MapResponse.LastEntryWins` | crdt_commands.go:1324-1353 | a field is present iff an entry names it, and has its last entry's value |
| `MapResponse.ParseInvertsEncoding` | crdt_commands.go:1322-1366 | any nested map written as entries in any order parses back to itself |
| `MapResponse.EncodingExists` | crdt_commands.go:1358-1366 | every map can be written as entries, so the round trip covers all maps |
| `Framing.BuildRiakMessage` | command.go:185-194 | length prefix, code, payload; the prefix is the length modulo 2^32, so the true one below that |
| `Framing.BigEndianRoundTrip` | connection.go:270 | decoding the length prefix inverts encoding it |
| `Framing.BigEndianOrder` | connection.go:270 | byte strings compare as the numbers they stand for, so the first byte is the most significant |
| `Framing.Connection.constructor` | connection.go:73-103 | a connection without socket, not yet inactive, with a 4-byte size buffer and a 2048-byte data buffer |
| `Framing.Connection.Connect` | connection.go:105-124 | available iff dial and handshake succeed; only a failed handshake makes it inactive |
| `Framing.Connection.ReadFull` | connection.go:281 | fills the buffer from the stream, or fails having taken what was left |
| `Framing.Connection.FitBuffer` | connection.go:271-276 | the slice has the message's length, the buffer never shrinks |
| `Framing.Connection.CleanAttempt` | connection.go:268-293 | one pass of the read loop without network error |
| `Framing.Connection.FaultyAttempt` | connection.go:268-290 | one pass that fails after some bytes |
| `Framing.Connection.Read` | connection.go:252-305 | read with retries: the message, the rest of the stream, the buffer size, and inactive after an error |
| `Framing.FrameReads` | connection.go:267-293 | reading a built frame yields code plus payload and leaves the stream behind it |
| `Framing.CutFrameRead` | connection.go:267-293 | a frame that the stream breaks off in is not read, and its bytes are gone |
| `Framing.MessagesReadBack` | connection.go:252-305 | any sequence of messages is read back in order, the stream is left at the next frame, the buffer size is the maximum of its old size and the largest message |
| `Framing.ReadMessages` | connection.go:252-305 | repeated reads on a live connection into its reused buffer are the reads of the closed form |
| `Framing.ReceiveMessages` | connection.go:252-305 | messages sent to a live connection are what it reads, whatever its buffer held |
| `Framing.RetryReadsBehindTheLoss` | connection.go:267-299 | a retried read returns what a clean read finds behind the bytes lost; without loss, the message itself |
| `Framing.RetryIsHarmlessIff` | connection.go:267-299 | a read with errors has the outcome of one without iff they are all temporary, no more than the retries, and took no byte |
| `Framing.BufferAfterRetries` | connection.go:267-299 | attempts that fail after the length prefix leave the buffer grown to that length, and none shrinks it |
| `Framing.RetryCanLoseAlignment` | connection.go:267-299 | a concrete stream on which a retry after the length prefix does not return the message |
| `ListKeys.ExecuteResponses` | connection.go:209-245 | the response loop on a live connection computes the outcome for the stream, and the connection stays available unless the read failed |
| `ListKeys.HandleChunk` | kv_commands.go:915-952 | a frame hands the command exactly the response its payload stands for, none if it is empty |
| `ListKeys.ExecIsFeed` | connection.go:209-245 | on the wire the loop takes exactly the frames of the messages it uses, with or without payload |
| `ListKeys.ExecGoesOn` | connection.go:209-245 | frames that do not end the loop are taken and it goes on behind them |
| `ListKeys.BadFrame` | connection.go:219-228 | an error response, another code than 18 and an unreadable payload fail the command and leave the stream behind the frame |
| `ListKeys.CutFrame` | connection.go:213-217 | a stream that ends inside a frame fails the command |
| `ListKeys.ZeroLengthPanics` | error.go:36-37 | a frame of length zero makes the loop index an empty slice |
| `ListKeys.FailureFromWire` | connection.go:209-245 | the same failures after any frames that do not end the loop, with the command as it then stands |
| `ListKeys.CollectsOn` | kv_commands.go:915-952 | responses not marked done do not end the loop, and the command has their keys so far |
| `ListKeys.ErrorDuringListing` | connection.go:209-245 | a listing broken off by an error response is a failed command with the keys that had come, none if there were no chunks |
| `ListKeys.CollectStep` | kv_commands.go:915-952 | one response appends its keys to those collected |
| `ListKeys.FirstEmptyMeaning` | kv_commands.go:917-919 | every message before the position found has a payload, the one at it has none |
| `ListKeys.CollectsKeys` | kv_commands.go:915-952 | without streaming: the first message without payload ends the listing with an empty response; if there is none, all messages are used and the keys are theirs, in order |
| `ListKeys.ListingFromWire` | kv_commands.go:904-952 | from bytes to keys, for any chunks: response, rest of the stream and outcome, with and without an empty payload |
| `ListKeys.ListingCompleteIff` | kv_commands.go:915-952 | all keys come back and the stream stands behind the listing iff no payload is empty, or only the last is and there are no keys |
| `ListKeys.StreamStep` | kv_commands.go:928-945 | what one response delivers to the callback, when it fails, and the whole command afterwards |
| `ListKeys.DeliversAllChunks` | kv_commands.go:933-942 | an accepting callback receives exactly the key-bearing messages up to the end or the first empty payload, in order, and the whole command afterwards |
| `ListKeys.StopsAtCallbackError` | kv_commands.go:937-940 | the callback receives the lists up to its first error and no more, no later message is used, the command fails without response |
| `ListKeys.StreamedFromWire` | connection.go:209-245 | from bytes to the callback: the lists delivered and where the stream is left, for a callback that accepts all and for one that fails |
| `ListKeys.StreamedCompleteIff` | kv_commands.go:915-952 | an accepting callback gets all key lists and the stream stands behind the listing iff no chunk but the last lacks a payload |
| `ListKeys.EmptyPayloadLosesKeys` | kv_commands.go:917-919 | a concrete listing, a chunk with a key and then a frame without payload, that ends successfully without keys |
| `Objects.TotalRemove` | object.go:161-163 | the slot count does not depend on the iteration order |
| `Objects.CountIndexes` | object.go:160-163 | the first loop counts all index values |
| `Objects.FlattenOne` | object.go:168-175 | one index list goes into consecutive slots, in order |
| `Objects.FlattenIndexes` | object.go:159-178 | the slots counted are exactly those filled, and hold each index list in its order, for any two iteration orders |
| `Objects.ToRpbContent` | object.go:151-204 | the content carries the object's fields, with the indexes flattened in some order |
| `Objects.FromRpbContent` | object.go:92-149 | tombstone mark, value (none for a tombstone), tag, types, metadata and links are the content's, the time is its seconds plus its microseconds as nanoseconds, and the pairs are grouped by name in order |
| `Objects.LastModifiedIsExactIff` | object.go:108 | the modification time read is the one meant iff its microseconds are zero; otherwise it is too early by less than a second |
| `Objects.GroupInvertsFlatten` | object.go:122-134 | grouping recovers every non-empty index list with its order |
| `Objects.RoundTrip` | object.go:92-204 | an object converted and converted back keeps value, types, metadata, links and non-empty indexes in their order; everything else, the tombstone mark included, comes back blank |

## Left out

- Sockets, dialing, TLS, authentication, deadlines and backoff durations: their outcomes are inputs.
- Protobuf marshalling and the generated message types: messages are datatypes, and unmarshalling a list-keys payload is a parameter.
- Interleavings inside a step: `start`, `stop` and the look for a connection take several locks in turn and are one step each; so are the tests and sets of a state that the code performs under separate locks (node.go:240-241, 314-315), and a tick that sees a shutdown in the middle of its iteration (cluster.go:398-400); nor are unlocked reads of the node slice modelled.
- `states.go`: the state checks are comparisons of a datatype's constructors; descriptions and error texts are not modelled.
- Nil and empty Go maps and slices are not told apart, nor are strings and byte slices; a nil register value counts as an empty one.
- Other commands, the fluent builders, `validateLocatable` (a parameter of Build) and the listing permission: single-branch field copying.
- `RetryableCommand.lastNode`: the previous node is an argument of the node manager and is not threaded through the scheduler.
- The connection a health check dials for itself (node.go:297-312), which is outside the pool and closed in every case: only the verdict of the check is an input.
- Liveness: nothing is said about when a due command, a tick or a health check happens.
- MapOps.OtherCallsDoNotMatter: compares a nested map by its presence only; its contents are the subject of MapCommute.CallsCommute and MapCompile.TreeMeansHistory.
- RoundRobin.NodeManager.ExecuteOnNode: requires that some round halts, because otherwise the loop does not end; HaltsIff says exactly when that is.
- ConnectionManagers.ConnectionManager.PutConn: requires the connection to be one the caller holds, as its only caller does.
- ConnectionManagers.ConnectionManager.RemoveConn: requires the connection to be one the caller holds, as its only caller does.
- ClusterExecute.Execute: takes the state checks, node answers and the queue's verdict as inputs; the interleaving with other commands is in Scheduler.
- Objects.AddToIndex: only as the grouping step; the object it mutates is not a class here.

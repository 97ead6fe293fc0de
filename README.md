# Curator lock predicates and connection state, in Dafny

This project models two parts of Apache Curator (the `haifuns/curator` fork).

The first part is the acquisition policy of its distributed locks. A lock is a directory of sequential ephemeral nodes on the coordination service (ZooKeeper).
- The standard driver decides from the sorted node names whether a participant holds one of `maxLeases` leases. If it does not, the driver names the node the participant must watch.
- The sorting driver normalises node names so that read and write nodes sort by sequence number alone.
- The read/write lock builds two mutexes over one directory:
  - a write mutex: the standard policy with one lease;
  - a read mutex: a reader is blocked only by a write node ahead of it.

The second part is `ConnectionState`, the client's session state machine. It holds:
- the connectivity flag;
- the session epoch `instanceIndex`;
- the stamp `connectionStartMs` used for timeout arithmetic;
- the parent watchers that receive every raw event;
- a bounded FIFO of exceptions raised off the calling thread.

Layout:
- `wrappers.dfy`: `Option`, `Result`, `Outcome`, `Min`, `Max`.
- `strings.dfy`: Java's `lastIndexOf`, `contains`, `startsWith` and `List.indexOf`.
- `standard_lock_driver.dfy`: `StandardLockInternalsDriver`.
- `read_write_lock.dfy`: `InterProcessReadWriteLock`, its sorting driver, its two internal mutexes, the read predicate and the participant filter.
- `connection_state.dfy`: `ConnectionState`, as pure transition functions over a `Session` value plus a class whose fields are updated in place. Each method of the class is proved to move `Model()` exactly as its transition function says.

Inputs that come from outside the object are parameters:
- the clock (`now`: one reading per operation);
- the ensemble provider's "connection string changed" answer (`hasNewConnectionString`);
- the thread's "session failed" mark (`sessionForThreadHasFailed`);
- the caller's ownership of the write mutex (`writeOwnedByCaller`);
- the failure, if any, of closing and re-opening the handle (`resetFailure`, `closeFailure`).

The handle is an abstract `ZkHandle` tagged with the epoch of the reset that opened it.

Behaviour of the code worth noting:
- In `checkTimeouts`, a changed connection string goes through `handleNewConnectionString`. A failed reset on that path is queued as a background exception, not raised. Only the reset after the larger timeout lets its failure escape to the caller.
- `getZooKeeper` returns the handle after a successful `checkTimeouts` too, not only when the client is connected.
- The sorting normaliser strips `__READ__` before `__WRIT__`. A write node whose prefix ends in `__READ` or `__READ_` would be normalised wrongly, because the read marker's match straddles the prefix and the write marker. The protection prefix of a node name ends in `-`, which rules this out, and the normalisation lemmas assume exactly that (`SeparatedPrefix`).
- When the queue is full, `queueBackgroundException` drops its oldest entries without any signal. The model keeps that behaviour, and `FifteenExceptionsKeepTheLastTen` states the loss.

## Model

| member | source | states |
|---|---|---|
| StandardLockDriver.ValidateOurIndex | curator-recipes/src/main/java/org/apache/curator/framework/recipes/locks/StandardLockInternalsDriver.java:84-90 | fails exactly for a negative index, with NoNode naming the node |
| StandardLockDriver.GetsTheLock | curator-recipes/src/main/java/org/apache/curator/framework/recipes/locks/StandardLockInternalsDriver.java:32-44 | NoNode exactly when our node is absent; granted exactly when the position of our first occurrence is below maxLeases, and then nothing is watched; otherwise the watch is the child maxLeases places ahead of our first occurrence; IndexOutOfBounds exactly when a waiting node's position ourIndex − maxLeases lies past the end of the children (only possible for a negative bound); with maxLeases >= 0 only NoNode can be raised |
| StandardLockDriver.WatchedNodeIsAhead | curator-recipes/src/main/java/org/apache/curator/framework/recipes/locks/StandardLockInternalsDriver.java:36-43 | with at least one lease and our node present (`IndexOf` finds it) the predicate never fails; it waits exactly when our index is at least maxLeases, and then watches the strict predecessor at index − maxLeases |
| StandardLockDriver.GrantedExactlyInsideLeaseWindow | curator-recipes/src/main/java/org/apache/curator/framework/recipes/locks/StandardLockInternalsDriver.java:36-40 | whenever the predicate answers, it grants exactly the nodes found among the first maxLeases children (none for a bound of zero or less, all of them for a bound past the end) |
| StandardLockDriver.StandardFixForSorting | curator-recipes/src/main/java/org/apache/curator/framework/recipes/locks/StandardLockInternalsDriver.java:67-82 | a name without the marker is kept; otherwise the result is the suffix right after the last occurrence of the marker |
| StandardLockDriver.StrippedHasNoMarker | curator-recipes/src/main/java/org/apache/curator/framework/recipes/locks/StandardLockInternalsDriver.java:73-82 | a non-empty marker never occurs in the stripped name |
| StandardLockDriver.StandardFixIdempotent | curator-recipes/src/main/java/org/apache/curator/framework/recipes/locks/StandardLockInternalsDriver.java:73-82 | stripping twice equals stripping once |
| ReadWriteLock.MarkersHaveEqualLength | curator-recipes/src/main/java/org/apache/curator/framework/recipes/locks/InterProcessReadWriteLock.java:61-63 | the read and write markers both have length 8 |
| ReadWriteLock.SortingFixForSorting | curator-recipes/src/main/java/org/apache/curator/framework/recipes/locks/InterProcessReadWriteLock.java:65-74 | the result is a suffix of the name that contains neither marker |
| ReadWriteLock.SortingFixIgnoresLockName | curator-recipes/src/main/java/org/apache/curator/framework/recipes/locks/InterProcessReadWriteLock.java:68-73 | the lockName argument does not affect the result |
| ReadWriteLock.SortingFixIsSequenceNumber | curator-recipes/src/main/java/org/apache/curator/framework/recipes/locks/InterProcessReadWriteLock.java:65-74 | a read or write node (prefix, marker, digits) normalises to exactly its sequence number when the prefix does not end in a character of `__READ__` (a protected node name's prefix ends in `-`) |
| ReadWriteLock.ReadFixLeavesSequenceNumber | curator-recipes/src/main/java/org/apache/curator/framework/recipes/locks/InterProcessReadWriteLock.java:70 | stripping the read marker from a read node leaves its sequence number |
| ReadWriteLock.WriteNodeAfterReadFix | curator-recipes/src/main/java/org/apache/curator/framework/recipes/locks/InterProcessReadWriteLock.java:70 | stripping the read marker from a write node leaves the write marker and the sequence number at the end when the prefix does not end in a character of `__READ__` (a protected node name's prefix ends in `-`) |
| ReadWriteLock.WriteFixLeavesSequenceNumber | curator-recipes/src/main/java/org/apache/curator/framework/recipes/locks/InterProcessReadWriteLock.java:71 | stripping the write marker from what remains of a write node leaves its sequence number |
| ReadWriteLock.ReadAndWriteNodesCompareBySequence | curator-recipes/src/main/java/org/apache/curator/framework/recipes/locks/InterProcessReadWriteLock.java:61-74 | a read node and a write node with the same sequence number normalise to the same string when the prefix does not end in a character of `__READ__` (a protected node name's prefix ends in `-`) |
| ReadWriteLock.OurReadIndex | curator-recipes/src/main/java/org/apache/curator/framework/recipes/locks/InterProcessReadWriteLock.java:202-215 | -1 exactly when no child is a non-write node starting with our name; otherwise the first such child |
| ReadWriteLock.FirstWriteBefore | curator-recipes/src/main/java/org/apache/curator/framework/recipes/locks/InterProcessReadWriteLock.java:199-206 | Integer.MAX_VALUE exactly when no write node precedes position k; otherwise the first write node |
| ReadWriteLock.ReadLockDecision | curator-recipes/src/main/java/org/apache/curator/framework/recipes/locks/InterProcessReadWriteLock.java:189-223 | the owner of the write mutex is granted at once; otherwise NoNode exactly when the scan finds no node of ours; granted exactly when no write node precedes ours; a blocked reader watches the first write node |
| ReadWriteLock.ReadLockPredicate | curator-recipes/src/main/java/org/apache/curator/framework/recipes/locks/InterProcessReadWriteLock.java:189-223 | the single-pass loop with its early break computes ReadLockDecision |
| ReadWriteLock.ReadersWithoutWritersAreGranted | curator-recipes/src/main/java/org/apache/curator/framework/recipes/locks/InterProcessReadWriteLock.java:38-40 | with no write node present, every present reader is granted without a watch |
| ReadWriteLock.WriteLockGrantedOnlyAtHead | curator-recipes/src/main/java/org/apache/curator/framework/recipes/locks/InterProcessReadWriteLock.java:132-148 | the write side (one lease) is granted exactly when its node heads the children; otherwise it watches the node immediately before it |
| ReadWriteLock.UpgradeBlocks | curator-recipes/src/main/java/org/apache/curator/framework/recipes/locks/InterProcessReadWriteLock.java:44-53 | a write node behind any other node (a read node of the same caller included) waits and is never granted |
| ReadWriteLock.GrantedWriterExcludesReaders | curator-recipes/src/main/java/org/apache/curator/framework/recipes/locks/InterProcessReadWriteLock.java:38-40 | while a write node holds the write lock, no reader that does not own the write mutex is granted |
| ReadWriteLock.ParticipantNodes | curator-recipes/src/main/java/org/apache/curator/framework/recipes/locks/InterProcessReadWriteLock.java:88-105 | the filtered list is no longer than the input, and every kept node contains the marker |
| ReadWriteLock.ParticipantNodesAreExactlyTheMarked | curator-recipes/src/main/java/org/apache/curator/framework/recipes/locks/InterProcessReadWriteLock.java:98-101 | every node with the marker is kept as often as it occurs; every other node is dropped |
| ReadWriteLock.ParticipantNodesKeepOrder | curator-recipes/src/main/java/org/apache/curator/framework/recipes/locks/InterProcessReadWriteLock.java:91-104 | the filter distributes over concatenation, so relative order is kept |
| ReadWriteLock.FixForSorting | curator-recipes/src/main/java/org/apache/curator/framework/recipes/locks/InterProcessReadWriteLock.java:65-74 | the standard driver's normaliser is `standardFixForSorting` with the mutex's own marker; both sorting drivers (the two that the read/write lock builds) use the sorting normaliser, which removes both markers; every driver returns a suffix of the name |
| ReadWriteLock.InternalInterProcessMutex.constructor | curator-recipes/src/main/java/org/apache/curator/framework/recipes/locks/InterProcessReadWriteLock.java:81-86 | the mutex records its path, marker, payload, lease bound and driver |
| ReadWriteLock.InternalInterProcessMutex.GetsTheLock | curator-recipes/src/main/java/org/apache/curator/framework/recipes/locks/InterProcessReadWriteLock.java:140-165 | the read side answers with the read predicate; the write side answers with the standard predicate and its own lease bound |
| ReadWriteLock.InterProcessReadWriteLock.constructor | curator-recipes/src/main/java/org/apache/curator/framework/recipes/locks/InterProcessReadWriteLock.java:128-167 | write side: `__WRIT__`, one lease; read side: `__READ__`, Integer.MAX_VALUE leases; two distinct fresh mutexes on one path; both share one fresh copy of the payload, equal to it, or null when it is null |
| Connection.CheckState | curator-client/src/main/java/org/apache/curator/ConnectionState.java:268-307 | SyncConnected and ConnectedReadOnly connect; SaslAuthenticated keeps the previous value; every other state disconnects |
| Connection.OfferBackground | curator-client/src/main/java/org/apache/curator/ConnectionState.java:353-361 | the queue grows by one up to a capacity of 10; it keeps the newest entries in order and ends with the new one |
| Connection.OfferAllKeepsNewest | curator-client/src/main/java/org/apache/curator/ConnectionState.java:353-361 | after any number of offers, the queue is the newest ten of all entries, in order |
| Connection.FifteenExceptionsKeepTheLastTen | curator-client/src/main/java/org/apache/curator/ConnectionState.java:353-361 | fifteen exceptions into an empty queue leave the last ten; the first five are dropped |
| Connection.TimeoutDecision | curator-client/src/main/java/org/apache/curator/ConnectionState.java:204-237 | nothing happens below both timeouts; at or past one of them: a changed connection string resets; otherwise a reset past both; otherwise ConnectionLoss |
| Connection.TimeoutExamples | curator-client/src/main/java/org/apache/curator/ConnectionState.java:204-237 | with timeouts 5000/3000: 2999 waits, 3000 and 5000 raise ConnectionLoss, 6000 resets, and 3000 with a new connection string resets |
| Connection.RemoveFirst | curator-client/src/main/java/org/apache/curator/ConnectionState.java:140-143 | an absent watcher leaves the list unchanged; otherwise exactly its first registration is removed |
| Connection.RemoveFirstTakesOneRegistration | curator-client/src/main/java/org/apache/curator/ConnectionState.java:140-143 | removal takes one registration of the watcher away and keeps every other |
| Connection.FanOut | curator-client/src/main/java/org/apache/curator/ConnectionState.java:177-182 | one delivery per watcher, in registration order, all with the same event and state |
| Connection.ResetStep | curator-client/src/main/java/org/apache/curator/ConnectionState.java:255-266 | a new epoch, disconnected, stamped now, whether or not the handle fails; a failure is returned as it is; on success the handle belongs to the new epoch |
| Connection.ResetInBackground | curator-client/src/main/java/org/apache/curator/ConnectionState.java:321-351 | a reset (new epoch, disconnected, stamped now) whose failure is queued instead of raised; on success the handle is re-opened for the new epoch, on failure it is kept; the queue stays within capacity |
| Connection.CheckTimeoutsStep | curator-client/src/main/java/org/apache/curator/ConnectionState.java:204-237 | by the elapsed time since the stamp: below both timeouts nothing changes; a changed connection string gives a background reset; past both timeouts a reset whose failure escapes; otherwise ConnectionLoss with nothing changed; only ConnectionLoss or the reset's own failure can escape |
| Connection.GetZooKeeperStep | curator-client/src/main/java/org/apache/curator/ConnectionState.java:78-99 | a failed thread session wins; then exactly the oldest queued exception is removed and raised; then a disconnected client runs the timeout check; then the handle is returned |
| Connection.GetZooKeeperTimeoutExamples | curator-client/src/main/java/org/apache/curator/ConnectionState.java:92-98 | with timeouts 5000/3000 and a disconnected client stamped at 0: at 3000 ms ConnectionLoss with the state unchanged; at 6000 ms a new epoch and its handle |
| Connection.HandleStateStep | curator-client/src/main/java/org/apache/curator/ConnectionState.java:309-319 | expiry or a changed connection string leads to a background reset; any other case changes nothing |
| Connection.ProcessStep | curator-client/src/main/java/org/apache/curator/ConnectionState.java:150-185 | every watcher gets the event in order, in the old epoch, before any reset; other event types only fan out, and the watchers see the connectivity unchanged; connection events set connectivity by CheckState, re-stamp only on a change, and reset on expiry or a new connection string |
| Connection.CloseStep | curator-client/src/main/java/org/apache/curator/ConnectionState.java:114-133 | disconnected afterwards in every case; a close failure comes back wrapped as an IOException; on success the handle is cleared |
| Connection.ExpiryStartsNewEpoch | curator-client/src/main/java/org/apache/curator/ConnectionState.java:184-185 | an Expired event always starts a new epoch and leaves the client disconnected, stamped now |
| Connection.StaysDisconnectedUntilConnected | curator-client/src/main/java/org/apache/curator/ConnectionState.java:158-169 | a disconnected client stays disconnected until a SyncConnected or ConnectedReadOnly event |
| Connection.TransitionsKeepQueueBounded | curator-client/src/main/java/org/apache/curator/ConnectionState.java:353-361 | reset, getZooKeeper, process, close and queueing never grow the queue past 10 |
| Connection.ConnectionState.constructor | curator-client/src/main/java/org/apache/curator/ConnectionState.java:64-76 | disconnected, epoch 0, empty queue, no handle; the given parent watcher, if any, is registered |
| Connection.ConnectionState.IsConnected | curator-client/src/main/java/org/apache/curator/ConnectionState.java:101-104 | the connectivity of the current state |
| Connection.ConnectionState.GetInstanceIndex | curator-client/src/main/java/org/apache/curator/ConnectionState.java:145-148 | the epoch of the current state, which ResetStep raises by one on every reset |
| Connection.ConnectionState.GetZooKeeper | curator-client/src/main/java/org/apache/curator/ConnectionState.java:78-99 | the new state and result are GetZooKeeperStep's |
| Connection.ConnectionState.Start | curator-client/src/main/java/org/apache/curator/ConnectionState.java:106-112 | the new state and outcome are those of one reset |
| Connection.ConnectionState.Close | curator-client/src/main/java/org/apache/curator/ConnectionState.java:114-133 | the new state and outcome are CloseStep's |
| Connection.ConnectionState.AddParentWatcher | curator-client/src/main/java/org/apache/curator/ConnectionState.java:135-138 | the watcher is appended; nothing else changes |
| Connection.ConnectionState.RemoveParentWatcher | curator-client/src/main/java/org/apache/curator/ConnectionState.java:140-143 | the watchers become RemoveFirst of the old list; nothing else changes |
| Connection.ConnectionState.Process | curator-client/src/main/java/org/apache/curator/ConnectionState.java:150-185 | the fan-out loop and the state update produce ProcessStep's state and deliveries |
| Connection.ConnectionState.CheckTimeouts | curator-client/src/main/java/org/apache/curator/ConnectionState.java:204-237 | the min/max branches produce CheckTimeoutsStep's state and outcome |
| Connection.ConnectionState.Reset | curator-client/src/main/java/org/apache/curator/ConnectionState.java:255-266 | the new state and outcome are ResetStep's |
| Connection.ConnectionState.HandleState | curator-client/src/main/java/org/apache/curator/ConnectionState.java:309-319 | the new state is HandleStateStep's |
| Connection.ConnectionState.HandleNewConnectionString | curator-client/src/main/java/org/apache/curator/ConnectionState.java:321-335 | the new state is that of a background reset |
| Connection.ConnectionState.HandleExpiredSession | curator-client/src/main/java/org/apache/curator/ConnectionState.java:337-351 | the new state is that of a background reset |
| Connection.ConnectionState.QueueBackgroundException | curator-client/src/main/java/org/apache/curator/ConnectionState.java:353-361 | the polling loop and the offer leave the queue equal to OfferBackground of the old queue; nothing else changes |

## Left out

- `createsTheLock` (StandardLockInternalsDriver.java:47-64) is left out. It is a remote create call on the coordination service.
- The lock's acquisition loop is not part of this model: creating the node, listing and sorting children with `fixForSorting`, and waiting on the watched node.
- `getLockNodeBytes` only returns the stored payload. The model keeps the payload as a field instead.
- `isOwnedByCurrentThread` of the write mutex depends on thread identity. It is the parameter `writeOwnedByCaller`.
- ReadWriteLock.ReadLockDecision and ReadWriteLock.ReadLockPredicate require at most Integer.MAX_VALUE children. A Java `List` cannot index beyond that, and below it the `Integer.MAX_VALUE` sentinel never collides with a real index.
- StandardLockDriver.GetsTheLock takes maxLeases as an unbounded integer. For a negative bound, `ourIndex - maxLeases` may lie past the end of `children`, where `children.get` throws; the model returns `IndexOutOfBounds` exactly there. The 32-bit overflow of `ourIndex - maxLeases` is not modelled.
- The `HandleHolder` and the ZooKeeper handle are abstract, as is `getSessionId` (ConnectionState.java:242-253). Where closing or re-opening the handle fails (Connection.ResetStep, Connection.CloseStep), the model keeps the previous handle value, because the holder's own state after a failure is not modelled.
- Connection.ResetStep, Connection.CheckTimeoutsStep and Connection.ProcessStep read the clock once per operation. The Java code may read it more than once, for instance in `checkTimeouts` and again in `reset`.
- Connection.GetZooKeeperStep returns the stored handle. A lazy open inside the holder's `getZooKeeper`, and any failure of it, are not modelled.
- Starting and closing the ensemble provider (`ensembleProvider.start`, `closeQuietly`) are I/O and are not modelled.
- Tracing (`EventTrace`, `OperationTrace`) and logging are not modelled. Neither are the `LOG_EVENTS` and `PROPERTY_DONT_LOG_CONNECTION_ISSUES` flags, which affect only output.
- The test-only `debugWaitOnExpiredEvent` sleep is not modelled.
- `ThreadUtils.checkInterrupted` re-sets the interrupt flag before queueing or wrapping. It does not change the queued or raised exception, so the model omits it.
- Concurrency is not modelled: the atomic fields, the `synchronized` sections and the concurrent queues. Every operation is one atomic step.
- Connection.FanOut and Connection.ConnectionState.Process assume that a parent watcher neither throws nor adds or removes watchers while the fan-out runs.
- `instanceIndex` and `connectionStartMs` are Java `long`s. Their 64-bit wrap-around is not modelled.
- Exception messages are not modelled, except for the node name carried by `NoNode`.

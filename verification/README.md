# Verified core of pggat

pggat is a PostgreSQL connection pooler. This project models its core in Dafny and proves what the
code promises, for every input, every run or every interleaving.

- `RBTreeSpec`, `RBTree`: the left-leaning red-black tree, first as operations on trees in which a
  failed assertion or a nil dereference is an explicit `None`, then as linked nodes changed in place.
- `Backend`, `Bridge`: a conforming PostgreSQL backend after section 55.2 (Message Flow) of the
  PostgreSQL 16 documentation, and the loops that relay a transaction between it and a client.
- `SchedulerSpec`, `SchedulerFairness`, `SchedulerTime`, `SchedulerLife`, `Scheduler`: the fair-share
  scheduler as a state machine, its safety, its fairness by turns and by time, and the lives of
  workers and users over all runs, and the class over the red-black tree that refines it.
  `SchedulerDrift` holds runs in which shares drift apart.
- `Codec`, `Layout`, `Decoder`, `Encoder`, `Packets`: the packet schemas, where their bytes stand, the
  two buffered streams, and the generated readers and writers as loops over them.
- `DiscoverySpec`, `Discovery`: the pool table, its incremental update and its reconciliation.
- `LifoSpec`, `Lifo`, `Ring`: the LIFO pooler under all interleavings, over the ring it uses.
- `EqpSpec`, `Eqp`: the mirror of prepared statements and portals and the synchronisation built on it.
- `Hybrid`: record and replay when the primary takes over from a replica.
- `KitchenSpec`, `Kitchen`: connection accounting of recipes.
- `ParameterSync`, `Matcher`: parameter synchronisation and the glob matcher.
- `Collections`: optional values, the order in which a Go map is walked, and removal from a slice.
- `Counterexamples`: concrete runs where a promise fails.

`dafny verify dfyconfig.toml` checks everything.

## Where a promise fails

Six promises do not hold of the code as it stands. In each case the model follows the code, a lemma
gives a concrete input or run, and a condition says when the promise holds.

- A transaction can end with a reply unread if a copy-in started from a batch fails before it has
  read the Sync sent behind it (`Bridge.Binding.Transaction`, `Counterexamples.EscapedSyncLeavesReply`).
  The exact condition compares two counts at the end of the run; that the backend asks for no copy
  data is a condition on what it will do, and suffices.
- A scheduler timeout that lost its race can remove another user's job, when that job stands at the
  user's own stride (`SchedulerSpec.TimeoutKeepsIff`, `Counterexamples.TimeoutTakesForeignJob`). The
  other user is not served as long as it waits, and if it then times out with nothing at its stride
  the receive under the lock has nothing to take.
- Users that always ask again do not always get equal shares (`SchedulerDrift.ShareDrifts`): a user
  whose slot is taken is moved on and is not given that back. Shares are equal up to the longest hold
  and what queueing moved the user that is behind (`SchedulerTime.EqualShare`), and it is moved if and
  only if its stride is below the floor or its slot is taken (`SchedulerTime.MovedLittle`).
- Updating the pool table in place can lack an empty read-only pool that building it creates
  (`DiscoverySpec.IncrementalIsRebuild`, `Discovery.LastReplicaLost`). The tables differ in nothing
  else (`Discovery.Right`).
- The mirror forgets requests sent behind a DISCARD ALL in the same batch
  (`EqpSpec.DiscardKeepsIff`, `EqpSpec.ParseBehindDiscardIsLost`).
- A non-empty ring made full has its tail one past its array, and after a pop the next push writes
  there (`Ring.FullRingWritesOutside`). Every operation is proved for rings made otherwise; the
  constructor `Make` of `Ring.Ring` says exactly when.

## Premises

- Scheduler and pooler: ids are not reused, a client acquires and holds one worker at a time and
  releases what it holds once, and the clock does not run backwards.
- Discovery: users of one name in a cluster have one password, no user is named like the read-only
  twin of another, cluster ids are distinct and no pool belongs to two clusters.
- Mirror: nothing is sent behind a Sync or Query before it is answered, as the bridge relays batches;
  closing a statement leaves open the portals made from it (`EqpSpec.ImplicitCloseIff` says when that matters).
- Kitchen: a recipe is fresh when learnt, and its minimum does not exceed its maximum if it has one.
- Hybrid: a replayed packet is read as typed if and only if it was, and its body to the end before the next read.
- Parameters: setting one parameter reports nothing about others.

## Model

| member | source | states |
|---|---|---|
| RBTreeSpec.DeleteCorrect | lib/util/rbtree/rbtree.go:71-127 | On every valid tree and present key, Delete succeeds on every path (no rotation assertion fires, no nil is dereferenced) and yields a valid left-leaning red-black tree whose contents are the old map without the key, on the old nodes less the one freed. |
| RBTreeSpec.DeleteWorks | lib/util/rbtree/rbtree.go:86-113 | delete, on any subtree that can lend a red: succeeds, keeps the black height, breaks the colour rules only at its root, removes exactly the key. |
| RBTreeSpec.DeleteMinRemoves | lib/util/rbtree/rbtree.go:115-127 | deleteMin removes exactly the least entry and returns its node. |
| RBTreeSpec.DeleteMinColours | lib/util/rbtree/rbtree.go:115-127 | deleteMin succeeds wherever the source calls it and restores black height and leaning. |
| RBTreeSpec.SetCorrect | lib/util/rbtree/rbtree.go:45-69 | Set succeeds on every valid tree and yields a valid one whose contents are the map update, on the old nodes, and the spare one exactly if the key is new. |
| RBTreeSpec.PutUpdates | lib/util/rbtree/rbtree.go:50-69 | put below any ordered tree is map update and keeps the order. |
| RBTreeSpec.PutBalanced | lib/util/rbtree/rbtree.go:50-69 | put keeps the black height and leaves at most one double red, at the root. |
| RBTreeSpec.BalanceKeeps | lib/util/rbtree/rbtree.go:194-206 | balance changes neither contents, order nor nodes. |
| RBTreeSpec.MoveKeeps | lib/util/rbtree/rbtree.go:175-192 | moveRedLeft and moveRedRight change neither contents, order nor nodes. |
| RBTreeSpec.Repair | lib/util/rbtree/rbtree.go:194-206 | balance turns any tree that the recursion can return into a left-leaning one of the same black height. |
| RBTreeSpec.HeightBound | lib/util/rbtree/rbtree.go:194-206 | Pow2(height) <= (size + 1) squared, that is height <= 2 log2(size + 1), for every valid tree. |
| RBTreeSpec.SizeIsCount | lib/util/rbtree/rbtree.go:194-206 | The number of nodes is the number of keys of the map. |
| RBTreeSpec.MinIsLeast | lib/util/rbtree/rbtree.go:208-216 | min is the entry of the least key of the map. |
| RBTreeSpec.MaxIsGreatest | lib/util/rbtree/rbtree.go:218-226 | max is the entry of the greatest key of the map. |
| RBTreeSpec.NextIsSuccessor | lib/util/rbtree/rbtree.go:228-253 | next is the least key above the given one, present or not, or nothing if there is none. |
| RBTreeSpec.PrevIsPredecessor | lib/util/rbtree/rbtree.go:255-280 | prev is the greatest key below the given one, or nothing if there is none. |
| RBTree.RotateRightAt | lib/util/rbtree/rbtree.go:145-155 | In place on linked nodes: exactly the functional rotation, on the same nodes. |
| RBTree.RotateLeftAt | lib/util/rbtree/rbtree.go:157-167 | In place: exactly the functional rotation. |
| RBTree.FlipColorsAt | lib/util/rbtree/rbtree.go:169-173 | In place: exactly the colour flip. |
| RBTree.MoveRedLeftAt | lib/util/rbtree/rbtree.go:175-183 | In place: exactly the functional step. |
| RBTree.MoveRedRightAt | lib/util/rbtree/rbtree.go:185-192 | In place: exactly the functional step. |
| RBTree.BalanceAt | lib/util/rbtree/rbtree.go:194-206 | In place: exactly the functional balance. |
| RBTree.RBTree.PutAt | lib/util/rbtree/rbtree.go:50-69 | The recursive put on linked nodes refines the functional one; its new node comes from the free list or is new. |
| RBTree.RBTree.DeleteMinAt | lib/util/rbtree/rbtree.go:115-127 | The recursive deleteMin on linked nodes refines the functional one. |
| RBTree.RBTree.DeleteAt | lib/util/rbtree/rbtree.go:86-113 | The recursive delete on linked nodes refines the functional one; the node it drops goes to the free list, which stays apart from the tree. |
| RBTree.RBTree.Set | lib/util/rbtree/rbtree.go:45-69 | Contents() becomes the map update; the tree stays valid and the free list stays unreachable from the root. |
| RBTree.RBTree.Delete | lib/util/rbtree/rbtree.go:71-84 | Contents() loses exactly the key, a missing key changes nothing; the tree stays valid and the free list unreachable. |
| RBTree.RBTree.Get | lib/util/rbtree/rbtree.go:30-43 | The search loop returns the value of the key in Contents(), or that there is none. |
| RBTree.RBTree.Min | lib/util/rbtree/rbtree.go:129-135 | The least key of Contents() with its value. |
| RBTree.RBTree.Max | lib/util/rbtree/rbtree.go:137-143 | The greatest key of Contents() with its value. |
| RBTree.RBTree.Next | lib/util/rbtree/rbtree.go:247-253 | The least key of Contents() above the given one. |
| RBTree.RBTree.Prev | lib/util/rbtree/rbtree.go:274-280 | The greatest key of Contents() below the given one. |
| RBTree.RBTree.Alloc | lib/util/rbtree/rbtree.go:21-28 | A node of the free list, or a new one; never one in use. |
| RBTree.RBTree.Free | lib/util/rbtree/rbtree.go:16-19 | The node joins the free list with its links cleared. |
| Backend.StepConserves | lib/bouncer/backends/v0/query.go:12-318 | Conservation for every conforming backend: each command is owed a ReadyForQuery, answered, or swallowed by a copy-in, and nothing else is. |
| Backend.AwaitConserves | lib/bouncer/backends/v0/query.go:12-318 | The same over any stretch of backend actions up to its next reply, whose status is the backend's own. |
| Backend.QuietIffNothingOwed | lib/bouncer/backends/v0/query.go:277-318 | An idle backend with nothing to read has no reply outstanding exactly if it owes none. |
| Backend.AwaitQuery | lib/bouncer/backends/v0/query.go:59-102 | Every reply that can follow a Query is one the loop of query is prepared for, and ReadyForQuery is the last. |
| Backend.AwaitSync | lib/bouncer/backends/v0/query.go:173-226 | Every reply that can follow a Sync is one the loop of sync is prepared for. |
| Backend.AwaitTracked | lib/bouncer/backends/v0/query.go:173-226 | The Syncs a copy-in swallows are exactly those the loop of sync has given up on, unless one escapes. |
| Backend.WaitsNotInVain | lib/bouncer/backends/v0/query.go:12-318 | With one command or batch in play that needs nothing more, every run of the backend up to its next reply can be continued to a ReadyForQuery without sending anything. |
| Backend.SkippingForGood | lib/bouncer/backends/v0/query.go:173-226 | After an error with no Sync to come no run of the backend reaches a ReadyForQuery: waiting can be in vain. |
| Bridge.Binding.PeerFail | lib/bouncer/backends/v0/context.go:37-43 | The peer is dropped and the error stored; it is the one that the log of what came from the peer calls for. |
| Bridge.Binding.PeerRead | lib/bouncer/backends/v0/context.go:45-59 | The next packet of the peer, in order, enters the log as read by this loop; or the peer is reported gone and nothing changes. |
| Bridge.Binding.PeerWrite | lib/bouncer/backends/v0/context.go:61-72 | Whatever is passed on while the peer is there arrives in order; afterwards nothing does. |
| Bridge.Binding.ServerRead | lib/bouncer/backends/v0/context.go:20-24 | The next reply of the backend, with the conservation of owed replies. |
| Bridge.Binding.ServerWrite | lib/bouncer/backends/v0/context.go:26-28 | The message joins the backend's inbox and the record of what was written, or the server has failed and neither changes. |
| Bridge.Binding.CopyIn | lib/bouncer/backends/v0/query.go:12-33 | On success the server was sent exactly the CopyData that the peer sent next and the CopyDone or CopyFail that ended them, in order; if the peer fails or sends anything else, the CopyData so far and one CopyFail. |
| Bridge.Binding.CopyPacket | lib/bouncer/backends/v0/query.go:16-31 | One round of copyIn: the next packet of the peer is relayed, ends the copy, or fails the peer; a peer that is gone gets a CopyFail in its place. |
| Bridge.Binding.CopyOut | lib/bouncer/backends/v0/query.go:35-57 | Relays copy data until the backend ends it. |
| Bridge.Binding.Query | lib/bouncer/backends/v0/query.go:59-102 | On success every reply up to ReadyForQuery was read and passed on in order, the server was sent the Query and the copy data the log says, and the backend is quiet. |
| Bridge.Binding.FunctionCall | lib/bouncer/backends/v0/query.go:139-171 | On success the reply and its ReadyForQuery were read, the server was sent the call and no more, and the backend is quiet. |
| Bridge.Binding.Sync | lib/bouncer/backends/v0/query.go:173-226 | On success the ReadyForQuery of a Sync was read, the server was sent the Sync and the copy data the log says; what is still owed is what was given up on and not swallowed. |
| Bridge.Binding.Eqp | lib/bouncer/backends/v0/query.go:239-275 | A batch is relayed packet by packet in order up to its Sync, which the bridge supplies if the peer fails; what does not belong in a batch is not relayed and fails the peer. |
| Bridge.Binding.Transaction | lib/bouncer/backends/v0/query.go:277-318 | Against any conforming backend and any peer: success means status I, replies relayed in order, and the server sent what the peer sent, in order, without the Syncs that the bridge answers itself and what was not expected, and with the CopyFail, Syncs and ABORT that it supplies once the peer is gone; a reply is left unread if and only if more Syncs were given up on than copy-ins swallowed, counted at the end; if no Sync escaped its copy-in none is left, the bridge meets no unexpected packet, and at each of its reads the backend, whatever it does before its next reply, can still go on to ReadyForQuery without being sent anything (BoundToFinish); and none escapes a backend that asks for no copy data. |
| Bridge.Binding.PhonyReady | lib/bouncer/backends/v0/query.go:288-292 | A Sync between commands is answered with the last status and never reaches the server. |
| Bridge.Binding.Relayed | lib/bouncer/backends/v0/query.go:277-318 | While the peer is up, the packets it sent so far are those the server was sent, in order, but for the Syncs answered by the bridge. |
| Bridge.CleanRelays | lib/bouncer/backends/v0/query.go:239-318 | The same of any log: reads and writes differ by the phony Syncs only, and are equal where there is none. |
| Counterexamples.EscapedSyncLeavesReply | lib/bouncer/backends/v0/query.go:173-226 | A run of the binding, in the calls that its loops make, in which a Sync escapes a failing copy-in: the transaction ends with status I and a ReadyForQuery left unread. |
| SchedulerSpec.NextKeeps | lib/rob/schedulers/v3/scheduler.go:37-320 | Every critical section keeps the invariant: workers in one place, no idle worker while a job is queued, a user scheduled iff the slot at its stride is its own, floor below every queued key and never falling. |
| SchedulerSpec.RunKeeps | lib/rob/schedulers/v3/scheduler.go:37-320 | The same over every run of events, that is every interleaving of clients in which no timeout hits a slot of someone else (TimeoutKeepsIff); floor never decreases over the run. |
| SchedulerSpec.AlwaysOnePlace | lib/rob/schedulers/v3/scheduler.go:37-282 | From a new scheduler on, at every point of every run each live worker is idle once, or with exactly one user. |
| SchedulerSpec.AlwaysOrdered | lib/rob/schedulers/v3/scheduler.go:37-282 | From a new scheduler on, at every point of every run no worker is idle while a job is queued, a user is scheduled if and only if the slot at its stride holds its own job, and no job is below the floor. |
| SchedulerSpec.OnePlace | lib/rob/schedulers/v3/scheduler.go:37-282 | Each live worker is idle, in one Ready channel or with one holder, and only there. |
| SchedulerSpec.LostRaceHasWorker | lib/rob/schedulers/v3/scheduler.go:188-226 | The receive made under the lock after a lost race never blocks. |
| SchedulerSpec.TimeoutKeepsIff | lib/rob/schedulers/v3/scheduler.go:188-226 | The timeout branch keeps the invariant if and only if the slot at the user's stride is not someone else's. |
| Counterexamples.TimeoutTakesForeignJob | lib/rob/schedulers/v3/scheduler.go:188-226 | A run to a state where the condition fails: a timeout removes another user's job, who in every continuation is handed no worker as long as it waits. |
| Counterexamples.StrandedForGood | lib/rob/schedulers/v3/scheduler.go:232-262 | Whoever waits on an empty channel without a job is handed no worker by any event, over every continuation without its own timeout. |
| SchedulerFairness.BoundedBypass | lib/rob/schedulers/v3/scheduler.go:119-262 | While a user waits at a key, grants to others are bounded by the turns they had left below it, plus workers deleted under them. |
| SchedulerFairness.StarvationFree | lib/rob/schedulers/v3/scheduler.go:119-262 | A queued user that does not give up its place is served in every run whose holds last a tick and that has more grants than that bound. |
| SchedulerFairness.NewcomersNeverFirst | lib/rob/schedulers/v3/scheduler.go:72-93 | Users added after the user queued, or behind it then, are never served before it, however short the holds are, unless it gives up its place. |
| SchedulerFairness.KeepsPlace | lib/rob/schedulers/v3/scheduler.go:119-262 | Whoever else is served, a queued user keeps its key until it is served, times out, is deleted or the scheduler closes. |
| SchedulerFairness.AheadStep | lib/rob/schedulers/v3/scheduler.go:153-262 | Every step lowers the measure by at least the grants it makes. |
| SchedulerTime.StrideIsHeldTime | lib/rob/schedulers/v3/scheduler.go:153-262 | Over every run a user's stride grows by exactly the time, taken from the events, for which it held workers, plus what queueing moved it, which is never negative. |
| SchedulerTime.UnqueuedCharge | lib/rob/schedulers/v3/scheduler.go:232-240 | A user that is not queued in the run is charged its held time to the tick. |
| SchedulerTime.StrideStep | lib/rob/schedulers/v3/scheduler.go:232-262 | Only a release charges, by release time minus hand-out time; only queueing moves a user otherwise. |
| SchedulerTime.MovedLittle | lib/rob/schedulers/v3/scheduler.go:153-161 | Queueing moves a user up to the floor if it was below it, and from there past no more slots than jobs are queued; it is not moved if and only if its stride is not below the floor and that slot is free. |
| SchedulerTime.FairShare | lib/rob/schedulers/v3/scheduler.go:119-262 | Whenever a worker goes to one user while another is queued, the first has held workers for no longer than the second, but for where they started and what queueing moved the second. |
| SchedulerTime.EqualShare | lib/rob/schedulers/v3/scheduler.go:119-262 | Over every run in which one user is queued whenever the other gets a worker, the other is ahead of it in held time by no more than where they started, its longest hold, and what queueing moved the one. |
| SchedulerDrift.ShareDrifts | lib/rob/schedulers/v3/scheduler.go:153-161 | From a new scheduler on, runs in which three users always ask again at once and every hold lasts one tick, and one is ahead of the others by any amount: taken slots move the others each time. |
| SchedulerTime.BypassTime | lib/rob/schedulers/v3/scheduler.go:119-262 | While a user waits at a key, another user holds workers for no longer than its stride was below that key, plus one hold, in however many turns. |
| SchedulerTime.NobodyQueuedBelow | lib/rob/schedulers/v3/scheduler.go:232-262 | After a worker was handed out at a key, nobody is queued below that key in any continuation, however long it rested. |
| SchedulerLife.LastInFirstOut | lib/rob/schedulers/v3/scheduler.go:133-142 | In every run a user that finds idle workers gets the one that became idle last. |
| SchedulerLife.WorkerStays | lib/rob/schedulers/v3/scheduler.go:37-54 | A worker that was added is idle or with a user at every later point until it is deleted or everything closes. |
| SchedulerLife.DeletedWorkerIsOut | lib/rob/schedulers/v3/scheduler.go:56-70 | A deleted worker is not idle again unless added again, and only who had it then can have it. |
| SchedulerLife.DeletedUserIsOut | lib/rob/schedulers/v3/scheduler.go:95-117 | A deleted user is never queued again, and if its client waits it can receive. |
| SchedulerLife.ClosedWakes | lib/rob/schedulers/v3/scheduler.go:303-320 | Closed is for ever, and every client that waits can receive. |
| SchedulerLife.ComeAndGo | lib/rob/schedulers/v3/scheduler.go:37-117 | What is added is there, what is deleted is not; a new user starts just above the greatest queued key, or at the floor. |
| Scheduler.Scheduler.AddWorker | lib/rob/schedulers/v3/scheduler.go:37-54 | AddWorker is, on the real fields and the red-black tree, exactly the event of the state machine and keeps its invariant. |
| Scheduler.Scheduler.DeleteWorker | lib/rob/schedulers/v3/scheduler.go:56-70 | DeleteWorker is, on the real fields and the red-black tree, exactly the event of the state machine and keeps its invariant. |
| Scheduler.Scheduler.AddUser | lib/rob/schedulers/v3/scheduler.go:72-93 | AddUser, whose start is just above the greatest queued key, is, on the real fields and the red-black tree, exactly the event of the state machine and keeps its invariant. |
| Scheduler.Scheduler.DeleteUser | lib/rob/schedulers/v3/scheduler.go:95-117 | DeleteUser is, on the real fields and the red-black tree, exactly the event of the state machine and keeps its invariant. |
| Scheduler.Scheduler.Acquire | lib/rob/schedulers/v3/scheduler.go:119-180 | The first critical section of Acquire, with its search for a free slot, is, on the real fields and the red-black tree, exactly the event of the state machine and keeps its invariant. |
| Scheduler.Scheduler.Receive | lib/rob/schedulers/v3/scheduler.go:182-187 | Acquire when its channel is ready is, on the real fields and the red-black tree, exactly the event of the state machine and keeps its invariant. |
| Scheduler.Scheduler.Release | lib/rob/schedulers/v3/scheduler.go:277-282 | Release is, on the real fields and the red-black tree, exactly the event of the state machine and keeps its invariant. |
| Scheduler.Scheduler.Close | lib/rob/schedulers/v3/scheduler.go:303-320 | Close, a loop over the schedule, is, on the real fields and the red-black tree, exactly the event of the state machine and keeps its invariant. |
| Scheduler.Scheduler.Timeout | lib/rob/schedulers/v3/scheduler.go:188-226 | The timeout branch of Acquire is, on the real fields and the red-black tree, exactly the event of the state machine; the receive under the lock never blocks, and the invariant is kept if and only if the slot is not someone else's. |
| Scheduler.Scheduler.ReleaseWorker | lib/rob/schedulers/v3/scheduler.go:232-262 | Charging the previous user and handing the worker to the job with the least key, which becomes the floor, is exactly the step of the state machine whose charges SchedulerTime measures. |
| Scheduler.Scheduler.GiveBack | lib/rob/schedulers/v3/scheduler.go:264-275 | release ignores deleted workers and a closed scheduler, and otherwise is releaseWorker. |
| Codec.RoundTrip | hack/packetgen/templates/decode.tmpl:5-126 | For every schema and value that fits it, decoding the encoding followed by anything yields the value and exactly what followed; nil and empty nullable slices stay distinct. |
| Codec.NumRoundTrip | hack/packetgen/templates/decode.tmpl:5-126 | An integer survives the trip through the bytes of its type if and only if the type can hold it. |
| Codec.NumBytes | hack/packetgen/templates/encode.tmpl:5-87 | Byte i of a number of w bytes is its digit for 256 to the power w - 1 - i: most significant byte first, in two's complement. |
| Codec.NumValue | hack/packetgen/templates/decode.tmpl:5-126 | A number is read as the sum of its bytes, each times 256 to the power of the number of bytes behind it. |
| Codec.RemainingRoundTrip | hack/packetgen/templates/decode.tmpl:5-126 | Remaining reads its items and stops where the packet ends, whatever follows. |
| Codec.RowsRoundTrip | hack/packetgen/templates/decode.tmpl:5-126 | Zero-terminated rows are read up to their terminator. |
| Codec.NeverDiverges | hack/packetgen/templates/decode.tmpl:5-126 | On every schema whose open-ended loops have items that take up room, decoding ends with a value or an error, whatever the input. |
| Codec.LengthIsExact | hack/packetgen/templates/length.tmpl:5-112 | Length is the number of bytes of the encoding, for every schema and value. |
| Codec.UniquelyDecodable | hack/packetgen/templates/encode.tmpl:5-87 | Two values of a schema with the same encoding are the same. |
| Layout.ZeroBytes | hack/packetgen/templates/encode.tmpl:78-87 | The zero value that ends a zero-terminated slice is written as zero bytes only, for every comparable type. |
| Layout.ZeroIff | hack/packetgen/templates/decode.tmpl:110-126 | A comparable value that was read is the zero value if and only if all bytes it was read from are zero. |
| Layout.RowLoopEnds | hack/packetgen/templates/decode.tmpl:110-126 | The row loop ends exactly at a first field of zero bytes, and takes those bytes and no more. |
| Layout.ItemAt | hack/packetgen/templates/encode.tmpl:5-87 | Item i of a slice stands behind the items before it, at the sum of their lengths. |
| Layout.FieldAt | hack/packetgen/templates/encode.tmpl:5-87 | Field i of a struct stands, in its own format, behind the fields before it. |
| Layout.CountPrefix | hack/packetgen/templates/encode.tmpl:5-87 | A counted slice starts with its number of items, most significant byte first, and the items follow. |
| Layout.TagPrefix | hack/packetgen/templates/encode.tmpl:5-87 | A variant starts with its tag, and the fields of that case follow. |
| Layout.NullBytes | hack/packetgen/templates/encode.tmpl:5-87 | A missing slice is written as a prefix of 255s and nothing else. |
| Layout.FrameLength | lib/fed/encoder.go:99-123 | The header holds the type unless there is none, and then the number of bytes behind the type. |
| Packets.WriteTo | hack/packetgen/templates/encode.tmpl:5-87 | The generated loops over an Encoder append exactly the encoding, whose bytes module Layout places, and advance the position by its length. |
| Packets.ReadFrom | hack/packetgen/templates/decode.tmpl:5-126 | The generated loops over a Decoder return what the decoding function does: value, rest, position and error, on every input on which it ends (NeverDiverges). |
| Packets.WriteRows | hack/packetgen/templates/encode.tmpl:5-87 | The loop over zero-terminated rows appends exactly their encoding. |
| Packets.ReadRows | hack/packetgen/templates/decode.tmpl:5-126 | The loop over zero-terminated rows follows the decoding function wherever that ends, so it stops exactly at a first field of zero bytes (Layout.RowLoopEnds). |
| Packets.ReadRemaining | hack/packetgen/templates/decode.tmpl:5-126 | The loop bounded by the packet length follows the decoding function wherever that ends. |
| Packets.Send | lib/fed/encoder.go:99-123 | A packet announced with its Length is written in full, so the next one can always start; the error for a wrong number of bytes is impossible. |
| Packets.SendAll | lib/fed/encoder.go:99-123 | Over any run of packet writes the output is the frames in order, and the position always equals the length. |
| Packets.ReceiveOne | lib/fed/decoder.go:181-205 | Skips what is unread of the last packet and reads the next one, typed or not, as it was written. |
| Packets.ReceiveAll | lib/fed/decoder.go:181-205 | Whatever pieces the frames arrive in, every wanted packet reads back with its type and value, the others are skipped, and reading never errs. |
| Decoder.Decoder.Refill | lib/fed/decoder.go:66-73 | The stream is unchanged; it fails only at its end. |
| Decoder.Decoder.Discard | lib/fed/decoder.go:75-95 | Drops exactly n bytes of the stream; fails if and only if it does not hold more than that. |
| Decoder.Decoder.ReadSome | lib/fed/decoder.go:97-124 | Takes bytes off the front of the stream, at least one unless it has ended. |
| Decoder.Decoder.ReadFull | lib/fed/decoder.go:126-139 | All bytes asked for, off the front of the stream, or an error that says whether any were left. |
| Decoder.Decoder.Read | lib/fed/decoder.go:141-154 | Never past the end of the packet; the position advances by what was read. |
| Decoder.Decoder.Next | lib/fed/decoder.go:181-205 | Skips the rest of the packet and reads the header that follows; succeeds if and only if both are there. |
| Decoder.Decoder.Uint | lib/fed/decoder.go:219-241 | The next bytes of the stream as a big-endian number: each times 256 to the power of the number of bytes behind it. |
| Decoder.Decoder.String | lib/fed/decoder.go:273-320 | The stream up to its first zero byte, however it is spread over refills. |
| Decoder.Decoder.Reset | lib/fed/decoder.go:58-64 | Forgets what was buffered and where the packet was; the reader stays. |
| Encoder.Encoder.Flush | lib/fed/encoder.go:68-75 | The output is unchanged and all of it handed over. |
| Encoder.Encoder.PutByte | lib/fed/encoder.go:77-86 | Appends the byte to the output. |
| Encoder.Encoder.Next | lib/fed/encoder.go:99-123 | Appends the header; refused if and only if the previous packet is incomplete. |
| Encoder.Encoder.Uint | lib/fed/encoder.go:143-177 | Appends the number, most significant byte first: each byte is the digit for its place. |
| Encoder.Encoder.String | lib/fed/encoder.go:203-220 | Appends the bytes and a zero, whatever their number. |
| Encoder.Encoder.ReadFrom | lib/fed/encoder.go:41-66 | Moves bytes from the decoder's packet to the output, in order and without loss. |
| Encoder.WritePending | lib/fed/packet.go:42-49 | Forwarding a packet of any length through both buffers is byte-exact and stops at its end; of a packet already overrun nothing is forwarded. |
| DiscoverySpec.IncrementalIsRebuild | lib/gat/handlers/discovery/module.go:141-218 | From the table built for a cluster, the update gives exactly the table built for the new one if and only if it does not take the last replica of a pool that someone keeps, with a factory whose pools hold no replicas themselves; in any order of the maps. |
| DiscoverySpec.UpdatedCell | lib/gat/handlers/discovery/module.go:141-218 | One update takes the pools of each user and database from what the old cluster wants to what the new one wants, down to recipes and credentials. |
| DiscoverySpec.UpdatedFrame | lib/gat/handlers/discovery/module.go:141-218 | An update touches no pool outside the users and databases of the two clusters. |
| DiscoverySpec.NodesCell | lib/gat/handlers/discovery/module.go:141-174 | After the node changes the old users and databases are on the new primary and replicas. |
| DiscoverySpec.UsersPhase | lib/gat/handlers/discovery/module.go:176-205 | New users and passwords get the new pools, old users lose theirs, others keep them. |
| DiscoverySpec.AddDatabasesCell | lib/gat/handlers/discovery/module.go:207-211 | New databases get pools for every user of the new cluster. |
| DiscoverySpec.DropDatabasesCell | lib/gat/handlers/discovery/module.go:212-218 | Old databases lose theirs. |
| DiscoverySpec.OverlayTrim | lib/gat/handlers/discovery/module.go:158-174 | Adding new and changed replicas and dropping the others gives the new replicas, in any order of the maps. |
| DiscoverySpec.AddedCell | lib/gat/handlers/discovery/module.go:126-139 | A cluster built where nothing is gets exactly the pools it wants. |
| Discovery.LastReplicaLost | lib/gat/handlers/discovery/module.go:288-304 | A concrete update whose table is not the rebuilt one: the empty read-only pool is missing. |
| Discovery.MovesKeep | lib/gat/handlers/discovery/module.go:442-469 | A change confined to one cluster's pools keeps the table right for all clusters with disjoint footprints. |
| Discovery.Determined | lib/gat/handlers/discovery/module.go:442-469 | With pools that hold their own replicas, the clusters determine the table: reconciled and rebuilt are equal. |
| Discovery.Module.AddPrimaryNode | lib/gat/handlers/discovery/module.go:220-238 | addPrimaryNode is its step on the pools of one user and database. |
| Discovery.Module.AddReplicaNodes | lib/gat/handlers/discovery/module.go:244-286 | addReplicaNodes is its step, in any order of the map. |
| Discovery.Module.RemoveReplicaNodes | lib/gat/handlers/discovery/module.go:288-304 | removeReplicaNodes is its step. |
| Discovery.Module.AddReplicaNode | lib/gat/handlers/discovery/module.go:306-331 | addReplicaNode is its step. |
| Discovery.Module.RemoveReplicaNode | lib/gat/handlers/discovery/module.go:333-351 | removeReplicaNode is its step. |
| Discovery.Module.Each | lib/gat/handlers/discovery/module.go:354-396 | The nested loops over users and databases are the fold of the step. |
| Discovery.Module.AddUser | lib/gat/handlers/discovery/module.go:399-404 | addUser is its fold. |
| Discovery.Module.RemoveUser | lib/gat/handlers/discovery/module.go:407-412 | removeUser is its fold. |
| Discovery.Module.AddDatabase | lib/gat/handlers/discovery/module.go:415-420 | addDatabase is its fold. |
| Discovery.Module.RemoveDatabase | lib/gat/handlers/discovery/module.go:423-428 | removeDatabase is its fold. |
| Discovery.Module.ChangeReplicas | lib/gat/handlers/discovery/module.go:149-174 | The replica switch of updated is its specification, for some order of the maps. |
| Discovery.Module.ChangeUsers | lib/gat/handlers/discovery/module.go:176-205 | The user loops of updated are their specification. |
| Discovery.Module.ChangeDatabases | lib/gat/handlers/discovery/module.go:207-218 | The database loops of updated are their specification. |
| Discovery.Module.Updated | lib/gat/handlers/discovery/module.go:141-218 | updated is its specification and records the new cluster. |
| Discovery.Module.Added | lib/gat/handlers/discovery/module.go:126-139 | added keeps the table right for all clusters, also when the cluster was known. |
| Discovery.Module.Removed | lib/gat/handlers/discovery/module.go:430-440 | removed keeps the table right for the clusters that are left; an unknown id changes nothing. |
| Discovery.Module.Reconcile | lib/gat/handlers/discovery/module.go:442-469 | Whatever was known before, the clusters are now those found and the table is right for them; if discovery fails nothing changes. |
| LifoSpec.NextKeeps | lib/gat/handlers/pool/poolers/lifo/pooler.go:39-183 | Every critical section keeps the invariant on servers, channels and waiters. |
| LifoSpec.RunKeeps | lib/gat/handlers/pool/poolers/lifo/pooler.go:39-183 | So does every interleaving of clients. |
| LifoSpec.NeverShared | lib/gat/handlers/pool/poolers/lifo/pooler.go:61-139 | At no point of any run do two clients hold one server, nor is a held one idle or in a channel. |
| LifoSpec.NeverLost | lib/gat/handlers/pool/poolers/lifo/pooler.go:39-183 | At every point of every run a server added and not deleted is idle, in a channel or held. |
| LifoSpec.LongestWaitFirst | lib/gat/handlers/pool/poolers/lifo/pooler.go:141-153 | A server that comes back goes to the client that has waited longest. |
| LifoSpec.LastInFirstOut | lib/gat/handlers/pool/poolers/lifo/pooler.go:61-77 | In every run from a new pooler on, a client that finds idle servers gets the one that became idle last, and the others stay. |
| LifoSpec.StackOrder | lib/gat/handlers/pool/poolers/lifo/pooler.go:39-183 | At every point of every run the idle servers stand in the order in which they became idle. |
| LifoSpec.AddedStays | lib/gat/handlers/pool/poolers/lifo/pooler.go:39-49 | A server that was added is idle, in a channel or held until it is deleted or the pooler closes. |
| LifoSpec.DeletedForGood | lib/gat/handlers/pool/poolers/lifo/pooler.go:51-59 | A deleted server is not idle in any later state, and no later event puts it in a channel. |
| LifoSpec.CloseWakes | lib/gat/handlers/pool/poolers/lifo/pooler.go:173-183 | Closed is for ever, and every client that waits has something to receive. |
| LifoSpec.NeverBlocks | lib/gat/handlers/pool/poolers/lifo/pooler.go:126-135 | The receive made under the lock after a lost race never blocks. |
| LifoSpec.ExceptIs | lib/gat/handlers/pool/poolers/lifo/pooler.go:113-124 | The round through the ring leaves the other waiters as they stood. |
| Lifo.Pooler.AddServer | lib/gat/handlers/pool/poolers/lifo/pooler.go:39-49 | On the real fields and the ring: AddServer is exactly the step of the state machine and keeps its invariant. |
| Lifo.Pooler.DeleteServer | lib/gat/handlers/pool/poolers/lifo/pooler.go:51-59 | On the real fields and the ring: DeleteServer is exactly the step of the state machine and keeps its invariant. |
| Lifo.Pooler.Acquire | lib/gat/handlers/pool/poolers/lifo/pooler.go:61-89 | On the real fields and the ring: Acquire's first critical section, which takes the server that became idle last (LifoSpec.LastInFirstOut), is exactly the step of the state machine and keeps its invariant. |
| Lifo.Pooler.Receive | lib/gat/handlers/pool/poolers/lifo/pooler.go:103-108 | On the real fields and the ring: Acquire when its channel is ready is exactly the step of the state machine and keeps its invariant. |
| Lifo.Pooler.Timeout | lib/gat/handlers/pool/poolers/lifo/pooler.go:109-135 | On the real fields and the ring: Acquire's timeout branch is exactly the step of the state machine and keeps its invariant. |
| Lifo.Pooler.Release | lib/gat/handlers/pool/poolers/lifo/pooler.go:141-160 | On the real fields and the ring: Release is exactly the step of the state machine and keeps its invariant. |
| Lifo.Pooler.Close | lib/gat/handlers/pool/poolers/lifo/pooler.go:173-183 | On the real fields and the ring: Close, a loop over the waiters, is exactly the step of the state machine and keeps its invariant. |
| Lifo.Pooler.Rotate | lib/gat/handlers/pool/poolers/lifo/pooler.go:113-124 | The loop of pops and pushes takes out the one channel, says whether it was there, and keeps the order of the rest. |
| EqpSpec.AgreeWhenReady | lib/fed/middlewares/eqp/state.go:32-206 | However the backend fails, and whatever is sent except behind a DISCARD ALL in one batch, at every ReadyForQuery mirror and backend agree on every named statement, its text and its types, and on every named portal; at an idle one there are no portals. |
| EqpSpec.NextKeeps | lib/fed/middlewares/eqp/state.go:32-206 | Each queue pairs each completion with its own request, and the named statements and portals agree, after every packet. |
| EqpSpec.DiscardKeepsIff | lib/fed/middlewares/eqp/state.go:167-183 | DISCARD ALL empties both sides and keeps the pairing if and only if no Parse, Bind or Close was sent behind it in the same batch. |
| EqpSpec.ParseBehindDiscardIsLost | lib/fed/middlewares/eqp/state.go:167-183 | A run in which it was, behind a prepared DISCARD ALL: the backend has a statement that the mirror does not know. |
| EqpSpec.QueryAgreesOnAll | lib/fed/middlewares/eqp/state.go:32-47 | A Query sent with nothing pending leaves mirror and backend in agreement on every name, the unnamed statement and portal gone from both. |
| EqpSpec.ImplicitCloseIff | lib/fed/middlewares/eqp/state.go:96-110 | Against a backend that closes the portals of a closed statement, the mirror agrees on named portals if and only if none was made from it. |
| EqpSpec.PlanBrings | lib/fed/middlewares/eqp/sync.go:23-88 | The requests bring the backend, on every name where the mirror knew it, to the client's statement, and no Parse names an open one; in any order of the maps. |
| EqpSpec.PlanBinds | lib/fed/middlewares/eqp/sync.go:23-88 | The same requests close every named portal of the server and bind the client's, and no Bind names an open one. |
| EqpSpec.SyncAgrees | lib/fed/middlewares/eqp/sync.go:23-101 | After the exchange, all of it accepted, the named statements of backend and mirror are the client's, whatever both sides held, and so are the named portals unless the answer is idle. |
| Eqp.State.Send | lib/fed/middlewares/eqp/state.go:32-47 | C2S on maps and rings is the mirror's step. |
| Eqp.State.CloseComplete | lib/fed/middlewares/eqp/state.go:96-110 | CloseComplete pops the close that was sent first and applies it. |
| Eqp.State.ParseComplete | lib/fed/middlewares/eqp/state.go:124-134 | ParseComplete pops the parse that was sent first and applies it. |
| Eqp.State.BindComplete | lib/fed/middlewares/eqp/state.go:148-158 | BindComplete pops the bind that was sent first and applies it. |
| Eqp.State.CommandComplete | lib/fed/middlewares/eqp/state.go:167-183 | DISCARD ALL empties everything, any other tag nothing. |
| Eqp.State.ReadyForQuery | lib/fed/middlewares/eqp/state.go:186-206 | Portals go if idle and stay otherwise, as the backend's do (EqpSpec.AgreeWhenReady), and everything pending goes. |
| Eqp.SyncMiddleware | lib/fed/middlewares/eqp/sync.go:23-101 | The four loops send exactly the plan, with the Bind of every portal of the client once, the mirror has seen it, and a Sync is due exactly if something was sent. |
| Hybrid.Middleware.ReadPacket | lib/gat/handlers/pool/pools/hybrid/middleware.go:41-62 | On a replica the packet, typed or not, is recorded and handed out from the record with the same type and body; on the primary it passes unchanged. |
| Hybrid.Middleware.Primary | lib/gat/handlers/pool/pools/hybrid/middleware.go:97-101 | Everything recorded is to be read again, from the start. |
| Hybrid.Middleware.PreRead | lib/gat/handlers/pool/pools/hybrid/middleware.go:24-39 | The next recorded packet, or nothing if and only if none is left. |
| Hybrid.Middleware.WritePacket | lib/gat/handlers/pool/pools/hybrid/middleware.go:64-84 | Suppressed if and only if something recorded is unread; otherwise a read-only error is caught and everything else forwarded. |
| Hybrid.Middleware.Reset | lib/gat/handlers/pool/pools/hybrid/middleware.go:90-95 | A new, empty record. |
| Hybrid.Middleware.Replay | lib/gat/handlers/pool/pools/hybrid/middleware.go:24-101 | All recorded packets come back with their types and values, in order, with nothing forwarded meanwhile; then reads fall through. |
| Hybrid.Middleware.Buffered | lib/gat/handlers/pool/pools/hybrid/buffer.go:24-26 | Both buffers are empty exactly if the recorded stream is. |
| KitchenSpec.NextKeeps | lib/gat/handlers/pool/spool/kitchen/chef.go:40-340 | Every critical section and every outcome of an unlocked dial keeps the invariant. |
| KitchenSpec.RunKeeps | lib/gat/handlers/pool/spool/kitchen/chef.go:40-340 | So does every interleaving. |
| KitchenSpec.AlwaysCounted | lib/gat/handlers/pool/recipe.go:22-67 | At every point of every run a recipe's count is its registered connections plus its dials in flight, and within its maximum. |
| KitchenSpec.AlwaysInverse | lib/gat/handlers/pool/spool/kitchen/chef.go:40-340 | At every point of every run the index by connection and the recipes' own sets are inverse. |
| KitchenSpec.AlwaysListed | lib/gat/handlers/pool/spool/kitchen/chef.go:57-102 | At every point of every run the recipes to choose from are those that have a name, each once. |
| KitchenSpec.RegisterGives | lib/gat/handlers/pool/spool/kitchen/chef.go:57-79 | Learning gives the name to the recipe with exactly its new connections, and none is left to the old one. |
| KitchenSpec.CookCounts | lib/gat/handlers/pool/spool/kitchen/chef.go:241-269 | Cook counts one more exactly within the maximum, registers a dial that succeeds and uncounts one that fails. |
| KitchenSpec.IgniteKeepsMinimum | lib/gat/handlers/pool/spool/kitchen/chef.go:297-313 | Ignite takes a connection exactly where the minimum remains without it, as Burn does, and else changes nothing. |
| KitchenSpec.ForgetCloses | lib/gat/handlers/pool/spool/kitchen/chef.go:81-102 | Forgetting drops every connection of the recipe and of no other; what it still counts is being dialled. |
| Kitchen.Chef.Learn | lib/gat/handlers/pool/spool/kitchen/chef.go:57-79 | Learn under the lock: the old recipe goes and the new one comes with its connections. |
| Kitchen.Chef.Dial | lib/gat/handlers/pool/spool/kitchen/chef.go:41-55 | Learn's dials stop at the first failure and free the rest. |
| Kitchen.Chef.Forget | lib/gat/handlers/pool/spool/kitchen/chef.go:81-111 | The loop of forget is its specification. |
| Kitchen.Chef.Cook | lib/gat/handlers/pool/spool/kitchen/chef.go:241-269 | Cook after its dial, whatever happened meanwhile. |
| Kitchen.Chef.Burn | lib/gat/handlers/pool/spool/kitchen/chef.go:281-294 | Burn takes the connection out of both indexes. |
| Kitchen.Chef.Ignite | lib/gat/handlers/pool/spool/kitchen/chef.go:297-313 | Ignite says whether it took the connection out. |
| Kitchen.Chef.Close | lib/gat/handlers/pool/spool/kitchen/chef.go:327-340 | Close takes every connection out; counts are what is being dialled. |
| Kitchen.Chef.Allocate | lib/gat/handlers/pool/recipe.go:36-48 | One more is counted if and only if the maximum allows it. |
| ParameterSync.SyncAgrees | lib/fed/middlewares/ps/sync.go:83-111 | A tracked name the client had keeps the client's value, any other name the server had keeps the server's, and both maps agree on every name the server has; in any order of the maps. |
| ParameterSync.NamesSettle | lib/fed/middlewares/ps/sync.go:92-97 | The first loop settles each name it walks and leaves the others. |
| ParameterSync.OthersSettle | lib/fed/middlewares/ps/sync.go:99-106 | The second loop settles the names the client did not have. |
| ParameterSync.SyncOne | lib/fed/middlewares/ps/sync.go:12-57 | sync is its specification on both maps, unless a write fails. |
| ParameterSync.Sync | lib/fed/middlewares/ps/sync.go:83-111 | The loops bring about what SyncAgrees states, and a client not synchronised before has been told every name the server has. |
| ParameterSync.Client.WritePacket | lib/fed/middlewares/ps/client.go:30-51 | A status that is nothing new is dropped; otherwise the map is updated and the program told, so that what it believes is what the map says. |
| Matcher.Matches | lib/util/strutil/matcher.go:9-51 | Terminates and decides the glob relation on every string free of U+FFFD. |
| Matcher.AnySuffix | lib/util/strutil/matcher.go:19-37 | The loop behind a star decides whether any suffix that it tries matches. |
| Matcher.StarMatch | lib/util/strutil/matcher.go:19-37 | Trying no empty suffix of a non-empty string loses nothing. |
| Matcher.EmptyMatch | lib/util/strutil/matcher.go:19-37 | A non-empty pattern that matches the empty string matches every string. |
| Ring.FullRingWritesOutside | lib/util/ring/ring.go:11-20 | After MakeRing with elements and a PopFront, the next PushBack writes outside the array if and only if the ring was made full. |
| Collections.RemoveFrom | lib/util/slices/remove.go:6-21 | The sequence without the first occurrence of the element, which is found by a loop. |
| Ring.Ring.Grow | lib/util/ring/ring.go:27-39 | Doubles the array and keeps the contents. |
| Ring.Ring.PopFront | lib/util/ring/ring.go:101-110 | The first element of the sequence, or none. |
| Ring.Ring.PopBack | lib/util/ring/ring.go:112-121 | The last element of the sequence, or none. |
| Ring.Ring.PushFront | lib/util/ring/ring.go:129-132 | Prepends to the sequence, growing if full. |
| Ring.Ring.PushBack | lib/util/ring/ring.go:134-137 | Appends to the sequence, growing if full. |
| Ring.Ring.Clear | lib/util/ring/ring.go:123-127 | The empty sequence. |
| Ring.Ring.Get | lib/util/ring/ring.go:147-156 | The element at the index. |

## Left out

- Sockets, TLS, dialling, authentication and SSL negotiation: external I/O; they appear as writes and dials that may fail.
- Configuration, Caddy modules, command line, metrics, tracing and logging: no effect on the modelled state.
- Kubernetes, DigitalOcean, Google and CloudNativePG discoverers: only the clusters they deliver are modelled.
- Wall-clock timers and goroutine scheduling: a timeout is an event that may happen at any time, the clock a parameter.
- Critic scoring and the order in which Cook tries recipes: Cook may pick any recipe that allocates.
- The `waiting` channels that signal the scale loop, and the scheduler's dead field `User.Worker`: no effect on who is served.
- UTF-8 decoding in the matcher, and case folding of parameter names: strings are sequences of characters, names are compared as they are.
- Credentials in the discovery handler are identified with the user record they are made from; the cache of them and closing the pools are left out.
- The backend model has no FATAL errors while idle; a Sync that the bridge answers itself before any status is known carries status 0, as in the code.
- SQL-level PREPARE and DEALLOCATE, portals that survive an abort, and a failed Parse of the unnamed statement: the mirror does not track them, so the results concern named statements and portals, and the unnamed ones only across a Query.
- Recipes of the kitchen are values in a map keyed by identity instead of objects; aliasing of one recipe under two names is excluded by a premise.
- The dial that `score` makes outside the count is not modelled.
- State.Set of the mirror, Client.Set of the parameters and SyncMiddleware of the parameters: copies of what is modelled.
- EqpSpec.DiscardKeepsIff: states when the invariant is kept at a DISCARD ALL; a mirror that lost the pairing may still agree by luck at the next ReadyForQuery.
- Decoder.Decoder.Reset: keeps the reader, as the hybrid middleware's resets do; putting a new reader in its place, as the upgrade of a connection to SSL does (lib/fed/codecs/netconncodec/codec.go:107), is not modelled.
- SchedulerFairness.BoundedBypass: a worker deleted under its holder gives that user its turn back, which the bound counts separately.
- Packets.ReadFrom: a schema whose items take no bytes makes the generated loop run for ever on some inputs; those inputs are excluded; the decoding function says which they are, and Codec.NeverDiverges that a schema whose items take up room has none.

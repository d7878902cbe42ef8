# Mote Broker, modelled and verified in Dafny

Mote is an MQTT broker that answers a subscription with one JSON tree instead of many packets. It keeps two
tries over topic nodes: the subscriptions (filter path, then client, then qos) and the retained messages (topic
path, then payload). The project models the broker from the wire to the database and proves that its separately
written parts agree with each other:

- **The trie** (`Tries`, `RecursiveDefaultDicts`): `RecursiveDefaultDict` as a mutable linked structure of nodes,
  each method proved against a function on trie values. A node's slot tells absent, present-but-null (the tombstone
  a delete leaves) and data apart.
- **The five recursive algorithms** over it: the subscription multiplexer (`Multiplexer`), the snapshot filter
  (`Filters`), wildcard and "#" expansion of a publish (`ApplicableRows`, `Expansion`), and the JSON flattener
  (`Flattening`, `Graft`). Each is a method on the linked structure. The multiplexer, the filter and the flattener are
  specified by path lookups rather than by their own recursion; the contracts of the two expansion methods are the
  recursions `Expand` and `Everything`, and `Expansion.ExpandExact` and `Expansion.EverythingExact` give those by lookups.
- **The tree manager and its worker** (`TreeManagers`, `Persistence`): retained rows, the worker's list of rows, the
  batched table writes, and the tree a restart preloads.
- **The broker** (`Subscriptions`, `Consistency`, `Brokers`): every broker and handler method is a step or a run of one state
  machine, and over all runs of that machine what a client that subscribed with a snapshot is shown at each topic is
  known exactly: the retained tree wherever the last publish it saw there was retained.
- **The wire** (`RemainingLength`, `Flags`, `Packets`, `Streams`, `Readers`): MQTT packets as fields read under a running length
  budget, with round trips over whole streams (sections 2.2, 2.2.3 and 3.3 of MQTT 3.1.1).
- **WebSocket transport** (`Frames`, `WebSockets`): frames, fragmentation and buffered reads, which behave like the
  plain byte stream they replace (sections 5.2 to 5.4 of RFC 6455).
- **The bytes** (`WireFormats`): what flags, lengths, packets and frames look like on the wire by the two standards, stated
  without the project's own printers and readers.
- **The qos 1 and 2 handshakes** (`Handshakes`, `HandshakeSafety`, `HandshakeDelivery`): the writer thread, the reader thread, one thread per
  packet and the client, interleaved in every way (section 4.3 of MQTT 3.1.1).

Modelling choices that run through the project:

- `Payload` is an optional byte string; `None` is the tombstone. `Item` is a JSON value with string or null leaves;
  `Blank` is the empty string the filter answers for a missing branch. Reading an item as a client does, null and
  empty bytes count as no value (`ValueAt`, `Visible`).
- Rows carry topics whose nodes hold no "/": `TopicsOk`. For JSON trees the same is asked of object keys
  (`ItemNodesOk`).
- A dict loop whose order cannot be seen in the result takes keys in any order; where Python's insertion order
  matters (`keys` of a trie node) it is kept.
- Exceptions are the `Err` case of `Result`.
- `Value` and `Repr` in `RecursiveDefaultDict` are ghost fields every method keeps up to date.

Where the code does not do what one would expect of it, the code is followed, an input shows it, and the exact
condition is proved:

- A batch is deletes first, then upserts; it equals row-by-row application exactly when no topic that ends deleted is
  also written in the batch (`Persistence.BatchIsRowByRow`). A message published and deleted before the worker wakes
  stays in the table (`Persistence.DeletedMessageReturns`) and is back after a restart
  (`TreeManagers.DeletedMessageRestored`). Over whole runs the table holds the tree's data exactly when no topic has
  come back that way (`Persistence.QuiescentTableExact`).
- `preload` drops empty topic nodes, so a restart restores the table exactly when no stored topic has one
  (`TreeManagers.LoadedExact`); "a//b" moves to "a/b" (`TreeManagers.EmptyNodeMoves`). `TreeManagers.RestartExact` gives the
  exact condition over any run: a restart keeps the data if and only if every stored record is the tree's data at its
  topic without the empty nodes and no topic with data has an empty node. `TreeManagers.RestartCauses` tells the two
  ways of failing apart.
- A publish without retain is broadcast and not stored, so a client may be shown what the tree does not hold
  (`Consistency.BroadcastSeenNotStored`); where and when is exact (`Consistency.QuiescentConsistencyExact`).
- `handle_subscribe` strips a leading "/" from a topic and `handle_unsubscribe` does not: unsubscribing with the string
  that was subscribed ends the subscription exactly when it has no such prefix (`Subscriptions.UnsubscribeSameString`,
  `Subscriptions.PrefixedStays`).
- `Frame.bytes` writes seven extended length bytes where `Frame.recv` reads eight, so a server frame is read back exactly
  when it is shorter than 65535 bytes (`Frames.FrameRoundTrip`). `send_bytes` stays below that; a pong need not
  (`WebSockets.LongPongWritten`).
- `next_packet_id` starts at 0 and no other thread takes ids, so every outbound message has id 0
  (`HandshakeSafety.IdsAreZero`, `HandshakeSafety.ZeroIdWritten`), which section 2.3.1 of MQTT 3.1.1 does not allow.
- A client whose id is empty is not removed when it disconnects, so what its handler held is stale until that id connects
  again, while every other handler still agrees with the trie (`Brokers.Broker.Leave`); and an UNSUBSCRIBE is acknowledged once for each topic (`Brokers.Broker.HandleUnsubscribe`), where section 3.10.4 of MQTT 3.1.1 asks for
  one UNSUBACK.

## Model

| member | source | states |
|---|---|---|
| Topics.FillProject | protocols/create_messages_for_subscriptions.py:13-20 | A topic that matches a filter is recovered from its nodes at the filter's "+" positions |
| Topics.ProjectFill | protocols/create_messages_for_subscriptions.py:13-20 | Filling a filter's "+" positions gives a matching topic whose nodes there are the ones put in |
| Topics.SplitJoin | models/topic.py:24-26 | Splitting a joined topic gives its nodes back when they hold no separator |
| Topics.JoinSplit | models/topic.py:60-64 | Joining what a string splits into gives the string back, for every string |
| Topics.SplitJoinExact | models/topic.py:24-26 | Nodes survive being joined and split if and only if none of them holds the separator |
| Topics.JoinInjective | tree/manager.py:30-30 | Two topics with the same database key are the same topic |
| Topics.SplitConcat | models/topic.py:60-64 | A "/" separates nodes wherever it stands: around it the nodes are those of the two halves |
| Topics.Wildcards | protocols/is_node_static.py:1-5 | "+" and "#" are the nodes that are not static, "+" stands for any node, and any other for itself |
| Tries.PutSlot | utils/recursive_default_dict.py:54-67 | Setting a leaf changes the slot at that path and at no other |
| Tries.PutKeepsOrder | utils/recursive_default_dict.py:14-21 | A new key joins the others at the end, at every node of the way, so insertion order is kept |
| Tries.PruneSlot | utils/recursive_default_dict.py:31-44 | Cascading deletion empties the slot at that path and no other |
| Tries.PruneUndoesPut | utils/recursive_default_dict.py:31-52 | Deleting a leaf that was just created restores the trie as it was, its branches included |
| Tries.PruneNoEmptyBranch | utils/recursive_default_dict.py:43-44 | Cascading deletion leaves no empty branch |
| RecursiveDefaultDicts.RecursiveDefaultDict.GetItem | utils/recursive_default_dict.py:14-21 | Indexing returns the branch, linking in an empty one when it is missing, and changes nothing else |
| RecursiveDefaultDicts.RecursiveDefaultDict.SetLeaf | utils/recursive_default_dict.py:27-29 | The leaf setter replaces the slot of this node only |
| RecursiveDefaultDicts.RecursiveDefaultDict.Assign | utils/recursive_default_dict.py:54-67 | Walking a path and setting its leaf is an update of the trie at that path |
| RecursiveDefaultDicts.RecursiveDefaultDict.Shift | utils/recursive_default_dict.py:46-52 | The shift operator returns the leaf at a path, having created the path and a default leaf where missing |
| RecursiveDefaultDicts.RecursiveDefaultDict.CascadeDelete | utils/recursive_default_dict.py:31-44 | Pops the leaf and every branch above it that is left empty, and nothing else |
| Rows.RetainSlot | tree/manager.py:78-83 | After a batch is retained each path holds the batch's last payload for it, or what it held before |
| Rows.LastMatching | protocols/create_messages_for_subscriptions.py:12-22 | The rows that match a filter have the same last payload for a matching topic as all rows |
| Items.BuildItemAt | protocols/create_messages_for_subscriptions.py:9-26 | The tree built from matching rows holds, at each choice of wildcard values, the last payload of the topic they make, and nothing else |
| Items.MessageEntries | protocols/create_messages_for_subscriptions.py:9-26 | The message of a batch for a filter holds at each choice of wildcard values the string of the last payload of the topic they make, null for a delete; without wildcards it is that payload |
| Items.OverlayAt | protocols/create_messages_for_subscriptions.py:9-26 | Overlaying a delta replaces exactly the entries the delta has |
| Filters.WholeOf | protocols/filter_tree.py:18-20 | A lone "#" shows the whole tree as the nested dict `Whole`, which the next two rows characterise |
| Filters.WholePaths | protocols/filter_tree.py:18-20 | A path of keys can be followed in it if and only if it is a path of the tree |
| Filters.WholeLeaf | protocols/filter_tree.py:18-20 | At each path "/" holds the string of the leaf there, null for a tombstone, and is missing where there is no leaf |
| Filters.FilterTree | protocols/filter_tree.py:7-58 | For a "#"-free filter the result is a snapshot: at each choice of wildcard values exactly the retained data of that topic (visible values only under a trailing "+"), uniformly deep, with no empty object inside. With a trailing "#" it is, at each choice, the whole branch there. With a "#" before the end it raises if and only if that "#" is reached, and is empty otherwise |
| Filters.FilteredEntries | protocols/filter_tree.py:22-58 | What a "#"-free filter shows, entry by entry: under a trailing "+" the string of a leaf that is not empty, else the string of every existing path, null where it has none |
| Filters.FilteredEverything | protocols/filter_tree.py:18-58 | What a filter with a trailing "#" shows, path by path: at each choice of wildcard values every leaf of the branch there, under "/", and every path of it, and no other |
| Filters.FilterBranches | protocols/filter_tree.py:22-42 | The same for a filter that starts with "+" |
| Filters.FilterBranch | protocols/filter_tree.py:25-41 | One branch under "+" is kept exactly when it has something to show |
| Filters.RaisesWhen | protocols/filter_tree.py:18-21 | A "#" before the end is reached if and only if the nodes before it match a path of the tree |
| Snapshots.SnapshotAgrees | protocols/filter_tree.py:7-58 | A snapshot reads like the retained tree at every choice of wildcard values |
| Snapshots.AdvanceAgrees | tree/manager.py:78-83 | If a view agrees with the tree, the view overlaid with a batch's message agrees with the tree that retained the batch |
| Snapshots.SnapshotDeltaCommute | protocols/create_messages_for_subscriptions.py:9-26 | Filtering after retaining a batch reads as filtering before and overlaying the message the batch causes |
| Snapshots.ReplayValue | broker/broker.py:71-80 | After any number of batches a view shows, at each choice of wildcard values, the last payload any of them has for that topic, else what it showed |
| Snapshots.ReplayAgrees | broker/broker.py:71-80 | A view that agrees with the tree still does after any number of retained batches |
| Multiplexer.WalkRefs | protocols/create_messages_for_subscriptions.py:13-20 | The ref and ref_key walk collects the row's nodes at the wildcard positions |
| Multiplexer.BuildMessageData | protocols/create_messages_for_subscriptions.py:9-26 | The message data is the tree built from the rows, or the last payload when the filter has no wildcard |
| Multiplexer.GroupRows | protocols/create_messages_for_subscriptions.py:35-45 | Rows are grouped by their node at this depth, in order, with those that end here apart |
| Multiplexer.CreateMessages | protocols/create_messages_for_subscriptions.py:29-79 | Below any branch: one message for each subscribed filter some row matches, made of precisely the matching rows, and no other |
| Multiplexer.MessagesUnder | protocols/create_messages_for_subscriptions.py:48-78 | One key of the branch contributes exactly the messages of the filters through that key |
| Multiplexer.DeliversBranch | protocols/create_messages_for_subscriptions.py:62-78 | What is right for a branch and the rows passed down is right for the filters through it, too-short rows under "+" included |
| Multiplexer.CreateMessagesForSubscriptions | protocols/create_messages_for_subscriptions.py:82-83 | The multiplexer is all-pairs matching: exactly one message for each subscribed filter that matches some row, to that filter's clients, from precisely the matching rows in batch order |
| ApplicableRows.GetEverythingAsRows | protocols/get_everything_as_rows.py:6-29 | One row, in tree order, for each path of the expansion `Everything` |
| ApplicableRows.GetApplicableRows | protocols/get_applicable_rows.py:8-66 | One row, in tree order, for each topic of the expansion `Expand`, or InvalidEverythingCard |
| Expansion.EverythingExact | protocols/get_everything_as_rows.py:13-29 | A "#" yields exactly the paths that bear a leaf, tombstones included, the start itself excepted |
| Expansion.ExpandExact | protocols/get_applicable_rows.py:15-66 | A publish topic yields a topic if and only if: it is the static topic itself; or a same-length match whose proper prefix is in the tree (and whose last node is, under a trailing "+"); or, with a trailing "#", a leaf-bearing strict descendant of a prefix match |
| Expansion.ExpandDistinct | protocols/get_applicable_rows.py:26-66 | No topic is yielded twice |
| Expansion.ExpandFails | protocols/get_applicable_rows.py:17-19 | Expansion raises if and only if some path of the tree matches the nodes before a "#" that is not last |
| Expansion.PublishTwice | tree/manager.py:85-91 | Retained publish is idempotent: the same message again yields the same rows in the same order and leaves the same tree, for any topic pattern |
| Flattening.FlattenMessageIntoRows | protocols/flatten_message.py:9-65 | Succeeds if and only if the data has the shape the topic asks for, and then yields one row for each string of the data at the topic it belongs to, plus in replace mode one delete for each leaf the data lacks, and nothing else |
| Flattening.FitsExact | protocols/flatten_message.py:21-65 | That shape by lookups: whatever can be found in the data is an object above the last wildcard and a string there, and nothing reaches a "#" |
| Flattening.FlattenBranches | protocols/flatten_message.py:41-54 | The same for a "+" that is not last |
| Flattening.FlattenLast | protocols/flatten_message.py:25-40 | The same for a trailing "+" |
| Flattening.FlattenDeletes | protocols/flatten_message.py:28-39 | The deletes of replace mode cover every leaf under this branch whose key the data lacks |
| Graft.FlattenBuild | protocols/flatten_message.py:9-65 | Flattening the tree built from rows yields each distinct topic once, with its last payload |
| Graft.BuildFlatten | protocols/create_messages_for_subscriptions.py:9-26 | Building a tree from the flattened rows of a uniformly deep tree without empty branches gives that tree back |
| Graft.ReplaceGraft | protocols/flatten_message.py:28-39 | After a replace-mode graft is retained, below every parent the data reaches the keys with data are exactly the data's, with the data's values |
| Graft.GraftElsewhere | models/messages.py:33-43 | A leaf no emitted row names is as it was |
| Persistence.BatchIsRowByRow | tree/manager.py:26-50 | A batch equals row-by-row application on every table if and only if no topic whose last entry is a delete is also written in it |
| Persistence.BatchedAt | tree/manager.py:26-50 | What a batch leaves at each topic: its last write if any, else nothing if deleted, else what was there |
| Persistence.AppliedAt | tree/manager.py:78-83 | What row-by-row application leaves at each topic |
| Persistence.LastWriteRow | tree/manager.py:26-50 | The record a topic's last write leaves has that row's data and qos |
| Persistence.RowByRowMirrors | tree/manager.py:78-83 | A table that holds the tree's data still does after both take the same rows |
| Persistence.NothingLost | backends/worker.py:44-60 | In every run, batches consumed, rows running and tasks pending are all rows ever retained, in order, and the tree has retained them all |
| Persistence.QuiescentTable | backends/worker.py:44-60 | When every batch met that condition and nothing is pending or running, the table is what row-by-row application of all rows gives |
| Persistence.BatchedAllAt | backends/worker.py:44-60 | What all batches of a run leave at each topic |
| Persistence.QuiescentTableExact | backends/worker.py:44-60 | In every run, with nothing pending or running, the table holds exactly the data of the tree if and only if, for every topic, the last batch that names it does not both write it and end by deleting it |
| Persistence.DataStored | backends/worker.py:44-60 | In every run, with nothing pending or running, each topic with data in the tree is stored with that data |
| Persistence.DeletedMessageReturns | tree/manager.py:26-50 | The run in which "a" is published and deleted before the worker wakes leaves the record in the table and a tombstone in the tree |
| TreeManagers.RawTopicKept | models/messages.py:45-75 | A trailing separator on a retained topic is the graft flag and no part of the topic; nothing else of the raw topic is lost, qos, data and tree are kept, and only an empty retained topic is refused |
| TreeManagers.PlainKeys | tree/manager.py:78-91 | A retained message that is no graft sets every topic it applies to, and no other, to its data; its rows have its data and its qos |
| TreeManagers.GraftKeys | models/messages.py:33-43 | A graft to a topic that ends in "+": under each parent the data reaches, a key of the data gets the data's string; any other key is deleted if the message's "/" is "+", and else left as it was |
| TreeManagers.GraftValues | models/messages.py:33-43 | A graft to a topic that ends in a static node leaves the data's strings, and all else as it was |
| TreeManagers.GraftMerges | protocols/flatten_message.py:27-39 | Without that flag no row of a graft is a delete |
| TreeManagers.GraftQos | protocols/flatten_message.py:27-56 | Every row of a graft has the message's qos |
| TreeManagers.TreeManager.AddTasks | backends/manager.py:52-55 | Appends to the shared task list, in order |
| TreeManagers.TreeManager.RetainRows | tree/manager.py:78-83 | Is the Retain step of the worker's machine: the tree retains the rows and the same rows join the worker's list |
| TreeManagers.TreeManager.ProcessMessage | tree/manager.py:85-91 | Grafts flatten, other messages expand; with the rows it is the Retain step of the worker's machine; a failing message changes neither tree nor tasks |
| TreeManagers.TreeManager.Filter | tree/manager.py:93-97 | The filtered retained tree, wherever the "#" of the filter stands, if it has one |
| TreeManagers.TreeManager.GetMessage | tree/manager.py:99-105 | A message under the filter's own topic that carries the filtered tree, or the same error |
| TreeManagers.TreeManager.Preload | tree/manager.py:60-76 | The preloaded tree has a leaf for each stored topic, at its path without the empty nodes, and no other; so it holds exactly the table's data if and only if no stored topic has an empty node |
| TreeManagers.LoadedExact | tree/manager.py:60-76 | That if and only if, for any tree so loaded |
| TreeManagers.EmptyNodeMoves | tree/manager.py:70-75 | A stored "a//b" comes back at "a/b" and not at its own path |
| Persistence.SkippedConcat | tree/manager.py:70-75 | Preload drops the empty nodes of a stored topic and keeps all others, in order |
| TreeManagers.RowsOfTopics | tree/manager.py:85-91 | Rows made from a message have topics of clean nodes, so they can be stored and split again |
| TreeManagers.RestartTransparent | tree/manager.py:60-83 | A tree and the tree preloaded from a table that holds its data have the same data at every path, however the tree came about |
| TreeManagers.RestartSnapshots | tree/manager.py:93-97 | Trees with the same data give snapshots that read the same |
| TreeManagers.RestartExact | tree/manager.py:60-91 | After any run, from any table that held the tree's data, with nothing pending or running: every tree that can be preloaded holds the tree's data if and only if each stored record is the tree's data at its topic without the empty nodes and no topic with data has an empty node |
| TreeManagers.RestartKeeps | tree/manager.py:60-91 | Under that condition whatever tree is preloaded holds the tree's data |
| TreeManagers.LoadedLast | tree/manager.py:60-76 | Each stored topic can be the last that preload takes, so its record can win its place |
| TreeManagers.RestartCauses | tree/manager.py:60-91 | The same by its causes: if no stored topic has an empty node a restart keeps the data if and only if no topic has come back, and if none has come back it does if and only if no stored topic has an empty node |
| TreeManagers.DeletedMessageRestored | tree/manager.py:60-91 | The table of `DeletedMessageReturns` gives a restarted broker the deleted message |
| TreeManagers.TreeWorker.RunTasks | tree/manager.py:26-50 | The table after a batch: deletes first, then upserts in order |
| TreeManagers.TreeWorker.BulkCreate | tree/manager.py:44-50 | Conflicting inserts update, the later entry winning |
| TreeManagers.ConsumeTasks | backends/worker.py:45-60 | One turn of the worker empties the shared list and runs exactly what it took: the Consume step of the worker's machine and, if it took anything, the Finish step |
| Subscriptions.SubscribeUpdates | broker/broker.py:131-133 | Subscribing is an update of the map (filter, client) to qos at one entry |
| Subscriptions.SubscribeAllLast | servers/handler.py:258-274 | The last request of a SUBSCRIBE for a topic sets its qos |
| Subscriptions.SubscribeTidy | broker/broker.py:131-133 | It keeps "no empty branch and no empty client set" |
| Subscriptions.UnsubscribeRemoves | broker/broker.py:136-145 | Unsubscribing removes one entry and touches no other |
| Subscriptions.UnsubscribeTidy | broker/broker.py:136-145 | It keeps "no empty branch and no empty client set" |
| Subscriptions.UnsubscribeAbsent | broker/broker.py:140-145 | Unsubscribing what is not there restores the trie, though the path is created first |
| Subscriptions.UnsubscribeUndoesSubscribe | broker/broker.py:131-145 | Unsubscribing a new subscription restores the trie as it was |
| Subscriptions.UnsubscribeAllRemoves | broker/broker.py:136-145 | Unsubscribing a list removes exactly the client's entries at those topics |
| Subscriptions.LeavesGone | servers/handler.py:293-297 | Unsubscribing all a handler holds leaves the client nowhere and every other client as it was |
| Subscriptions.UnsubscribeEnds | servers/handler.py:258-291 | After a SUBSCRIBE and an UNSUBSCRIBE, whatever they list, a subscribed filter is still there if and only if the UNSUBSCRIBE does not list it without its sync prefix |
| Subscriptions.UnsubscribeSameString | servers/handler.py:258-291 | Unsubscribing with the string that was subscribed leaves the subscription if and only if the string starts with a separator |
| Subscriptions.PrefixedStays | servers/handler.py:261-266 | SUBSCRIBE "/a" and then UNSUBSCRIBE "/a" leave the client subscribed to "a" |
| Subscriptions.SubscribeAgrees | servers/handler.py:267-274 | Handler set and trie still agree, for every client, after a subscribe |
| Subscriptions.UnsubscribeAgrees | servers/handler.py:284-289 | And after an unsubscribe |
| Subscriptions.AddClient | broker/broker.py:131-133 | The in-place subscribe is that update |
| Subscriptions.RemoveClient | broker/broker.py:137-145 | The in-place unsubscribe is that removal, cascading when the client set empties |
| Consistency.PublishKeeps | broker/broker.py:117-121 | A retained publish keeps every synchronised view: it shows the last row seen since its sync subscribe, else what the tree held then |
| Consistency.BroadcastKeeps | broker/broker.py:119-121 | So does a publish without retain, which the tree does not take |
| Consistency.DispatchKeeps | broker/broker.py:95-111 | So does dispatching the oldest batch |
| Consistency.DispatchQueues | broker/broker.py:95-111 | A dispatch queues each connected client, for each filter it is subscribed to that matches some row, one message under that filter, with the qos of that subscription and the data of the batch; no other message and no other client |
| Consistency.SyncSubscribeKeeps | broker/broker.py:123-134 | So does a sync subscribe, taken while older batches are still queued and with or without a "#" in its filter |
| Consistency.TableSubscribeKeeps | broker/broker.py:128-134 | So does a subscribe to a table, whose answer is queued |
| Consistency.SubscriptionKeeps | broker/broker.py:123-146 | So do subscribing, unsubscribing, connecting and leaving |
| Consistency.RunKeeps | broker/broker.py:71-146 | The invariant holds along every run |
| Consistency.QuiescentConsistencyExact | broker/broker.py:71-134 | In every run, publishes without retain included: what a client was sent since its sync subscribe, overlaid with the messages of the queued batches, shows at each topic the last row queued at or published after the subscribe, else what the tree held then; so it reads as the current snapshot there if and only if that is what the tree shows now. With an empty queue what it was sent alone does |
| Consistency.QuiescentConsistency | broker/broker.py:71-134 | So it reads as the current snapshot at every topic whose latest publish, if any, was retained |
| Consistency.BroadcastSeenNotStored | broker/broker.py:119-121 | Where they differ: the run in which a synchronised client is shown a broadcast value that the tree does not hold |
| Consistency.NothingTransient | broker/broker.py:113-121 | In a run without publishes that are not retained the corollary speaks of every topic |
| Consistency.SyncSubscribeRecorded | broker/broker.py:123-146 | What the exact statement speaks of: a sync subscribe to a "#"-free filter starts from the tree as it is and the queued rows, every later publish adds its rows, and only its unsubscribe, its connection's end, a new sync or a subscribe to a table ends it |
| Consistency.TreeOfRun | broker/broker.py:117-121 | The tree of any run is what the rows of its retained publishes make of the tree it began with |
| Brokers.Broker.constructor | broker/broker.py:20-33 | A new broker is in a starting state of the machine, and handler sets and trie agree |
| Brokers.Broker.AddClient | broker/broker.py:82-86 | An earlier connection of the id is unsubscribed from all it holds; then the new one is entered. A run of the machine after which handler sets and trie agree |
| Brokers.Broker.SetClient | broker/broker.py:86-86 | Is the machine's Connect step |
| Brokers.Broker.RemoveClient | broker/broker.py:88-93 | Is the machine's Remove step, or no step for the empty id |
| Brokers.Broker.ProcessOutgoingRows | broker/broker.py:95-111 | Every connected client is queued its share of the multiplexed messages, in order, and nothing else |
| Brokers.Broker.DispatchNext | broker/broker.py:73-80 | Is the machine's Dispatch step; handler sets and trie still agree |
| Brokers.Broker.Enqueue | broker/broker.py:121-121 | Adds one batch at the end of the queue and changes nothing else |
| Brokers.Broker.ProcessMessage | tree/manager.py:85-91 | Retains the rows of an accepted message, gives the worker the same rows, and touches nothing else of the broker |
| Brokers.Broker.PublishRetained | broker/broker.py:117-121 | Is the machine's Publish step with the rows of the message, which the worker is given too, or no step when the message fails; handler sets and trie still agree |
| Brokers.Broker.PublishOnce | broker/broker.py:119-121 | Is the machine's Broadcast step with the single row when the topic is static, and fails otherwise |
| Brokers.AsSingleRow | models/messages.py:80-84 | One row if and only if every node is static |
| Brokers.Broker.Publish | broker/broker.py:113-121 | A message for a table goes to the table manager and takes no step. Any other succeeds if and only if the topic's first node is not empty and the message is accepted, and is the Publish or the Broadcast step, or no step; the worker is given its rows if it is retained, and nothing otherwise |
| Brokers.TableTopics | models/topic.py:52-54 | A topic string names a table if and only if it starts with "@" |
| Brokers.Broker.AddTableTask | broker/broker.py:114-115 | The table manager is given one task |
| Brokers.Broker.SendSnapshot | broker/broker.py:125-127 | Queues the client the filtered tree, or changes nothing when the filter raises |
| Brokers.Broker.Subscribe | broker/broker.py:123-134 | Is the machine's Subscribe step, its SyncSubscribe step with the filtered tree as it was, or for a table its TableSubscribe step with the table manager's answer, the last two queued; fails if and only if the filter raises, or, without sync, the first node is empty |
| Brokers.Broker.SendTable | broker/broker.py:128-130 | Queues the client the table manager's answer under the topic of the filter |
| Brokers.Broker.Unsubscribe | broker/broker.py:136-146 | Removes the client's entries at the topics: one Unsubscribe step of the machine after another |
| Brokers.Broker.HandleSubscribe | servers/handler.py:258-281 | A run of the machine with one step for each request before the first one refused (no topic, or a snapshot whose filter raises), all of them when none is; the SUBACK has their qos, and handler sets and trie agree |
| Brokers.Broker.HandleSubscribeRequest | servers/handler.py:260-276 | A leading separator asks for the snapshot, which is queued at once, and is no part of the filter; the step is the machine's |
| Brokers.Broker.HandleUnsubscribe | servers/handler.py:283-291 | Removes the topics from handler set and trie, one Unsubscribe step after another, and writes an UNSUBACK with the packet's id for each |
| Brokers.Broker.Leave | servers/handler.py:293-297 | Unsubscribes all the handler holds and removes the client unless its id is empty, as a run of the machine after which the id occurs nowhere in the trie and every other entry is unchanged; every handler still agrees with the trie, but for that of the empty id if it held anything |
| Brokers.Broker.HandlePublish | servers/handler.py:229-232 | The Publish step of a retained message with the rows it makes of the tree, or the Broadcast step of its single row; no step exactly when the message is refused or is for a table, whose manager is then given it. The worker is given exactly the rows retained |
| Brokers.AcceptsExact | models/messages.py:33-84 | A retained graft is accepted if and only if its data has the shape its topic asks for, any other retained message if and only if the tree leads to no "#" before the end of its topic, and one that is not retained if and only if it has no wildcard |
| Brokers.PublishEffect | broker/broker.py:113-121 | What that run does: an accepted message for no table queues one batch, which the tree takes if it is retained; any other changes nothing |
| Brokers.Broker.HandleDisconnected | servers/handler.py:293-299 | Unsubscribes and removes the client, then publishes the last will, if there is one, on the tree as it was: a run of the machine after which the id occurs nowhere in the trie and every other entry is unchanged; handler sets and trie agree, and for the worker's machine the run is one Retain step of the rows it retained |
| Brokers.Broker.HandlePacket | servers/handler.py:301-308 | For each kind of packet the run it takes is stated: a SUBSCRIBE its requests up to the first refused, an UNSUBSCRIBE its topics, a PUBLISH what its message makes of the tree; the table manager and the worker are given exactly theirs |
| Brokers.SubscribeEffect | servers/handler.py:258-274 | What a SUBSCRIBE does: of the requests before the first one refused, the last for each topic sets its qos |
| Brokers.RefusedExact | servers/handler.py:261-274 | A request is refused if and only if it is empty, or asks for a snapshot and the tree leads to a "#" before the end of its topic |
| Brokers.UnsubscribeEffect | servers/handler.py:283-291 | What an UNSUBSCRIBE does: the client's entries at its topics are gone and every other entry is as it was |
| Brokers.Broker.HandlePackets | servers/handler.py:337-339 | Packets one after another are one run, each handled on the tree the packets before it left; for the worker's machine it is one Retain step of the rows they retained |
| Brokers.Broker.UnsubscribeHeld | servers/handler.py:293-296 | What a disconnected or overridden handler held is unsubscribed, whatever the order |
| RemainingLength.LengthRoundTrip | packet/base_packet.py:44-55 | Decoding inverts encoding for every length below 128 to the fourth, whatever follows, and takes exactly those bytes |
| RemainingLength.LengthAccepted | servers/streams.py:39-55 | An encoded length is accepted if and only if it is below that limit; every larger one is rejected |
| RemainingLength.EncodeShortest | packet/base_packet.py:44-55 | No byte string that decodes to a length is shorter than its encoding |
| WireFormats.LengthDigits | packet/base_packet.py:44-55 | Each byte of a length holds seven bits of it, lowest first, and 128 on all but the last |
| WireFormats.DecodedSum | servers/streams.py:39-55 | A decoded length is the sum of at most four bytes' low seven bits, each worth 128 times the one before |
| RemainingLength.GetHeaderBytes | packet/base_packet.py:44-55 | The loop ends, having written type and flags and then the encoding |
| Flags.FlagsUnpack | packet/types/flag_group.py:22-43 | In a group of flags on separate bits every flag reads back as it was written |
| Flags.FromKwargs | packet/types/flag_group.py:22-33 | The loop packs the group |
| Flags.FromInt | packet/types/flag_group.py:35-43 | The loop reads every flag of the group |
| Packets.FieldsRoundTrip | packet/base_packet.py:28-42 | Printed fields parse back under the running length budget, whatever follows, taking exactly the bytes announced, empty rest data read as none |
| Packets.ItemsRoundTrip | packet/types/dynamic_list.py:14-37 | A printed list of strings, bytes or subscribe requests parses back item by item until its length is used up |
| Streams.PacketRoundTrip | packet/base_packet.py:57-83 | A packet of any class, CONNECT and SUBSCRIBE as a client writes them, parses back from its bytes, whatever follows, and takes exactly those bytes |
| Streams.ConnectRoundTrip | packet/connect.py:30-66 | The optional fields of a CONNECT are found by the flags read before them |
| Streams.StreamRoundTrip | packet/base_packet.py:57-83 | The bytes of any list of packets, end to end, parse back to the list |
| Streams.CutShort | servers/streams.py:14-62 | A packet that is cut short anywhere is never misread: the reader finds the connection gone |
| Streams.FlagsRoundTrip | packet/publish.py:9-23 | The retain flag and the qos come back from the four flag bits |
| WireFormats.PublishFlagBits | packet/publish.py:9-23 | For every flags byte: retain is the lowest bit and qos the next two |
| WireFormats.PublishFlagByte | packet/publish.py:9-23 | The flags written are twice the qos, plus one for retain |
| WireFormats.ConnectFlagBits | packet/connect.py:23-29 | For every connect flags byte: clean session is bit 1, the will's flag 2, its qos 3 and 4, its retain 5, the password 6, the user name 7 |
| WireFormats.ConnectTailBits | packet/connect.py:40-66 | Bit 2 brings the will's topic and message, bit 7 the user name, bit 6 the password, in this order |
| WireFormats.PublishBytes | packet/publish.py:26-35 | The bytes of a PUBLISH: header, topic behind its length, id above qos 0, data |
| WireFormats.ConnectBytes | packet/connect.py:30-66 | The bytes of a CONNECT: protocol name, level, flags, keep-alive, client id, then the strings the flags enable |
| WireFormats.SubscribeBytes | packet/subscribe.py:8-16 | The bytes of a SUBSCRIBE: id, then topic and qos of each request |
| WireFormats.UnsubscribeBytes | packet/unsub.py:1-9 | The bytes of an UNSUBSCRIBE: id, then its topics |
| WireFormats.SubackBytes | packet/suback.py:1-9 | The bytes of a SUBACK: id, then a code for each request |
| WireFormats.ConnackBytes | packet/connack.py:1-9 | The bytes of a CONNACK: two numbers |
| WireFormats.AcknowledgementBytes | packet/puback.py:5-7 | The bytes of PUBACK, PUBREC, PUBREL, PUBCOMP and UNSUBACK: the id |
| WireFormats.BlankBytes | packet/pingreq.py:1-5 | PINGREQ, PINGRESP and the last class have a header alone |
| WireFormats.ClassesKnown | packet/packets.py:17-33 | Every type code below 16 has a class but 0 and 14 |
| Streams.PublishStreamRoundTrip | packet/publish.py:26-35 | Any list of PUBLISH packets (topic below 65536 bytes, qos up to 2, an id exactly when qos is above 0, body below 128 to the fourth) parses back from its stream, empty data as none |
| Streams.ToBytes | packet/base_packet.py:57-71 | Writes the header for exactly the payload that follows, or fails at the fields only clients write |
| Streams.ServerWrites | packet/base_packet.py:57-71 | Those are CONNECT's flags and a SUBSCRIBE's requests; every other packet is written |
| Readers.ReaderWriter.DecodePacketLength | servers/streams.py:39-55 | Reads what the length decoder says, or fails as it does, and leaves the stream right after it |
| Readers.ReaderWriter.DecodeHeader | servers/streams.py:57-62 | Splits the first byte into type and flags |
| Readers.ReaderWriter.DecodeStr | servers/streams.py:14-26 | Reads a string of the announced length |
| Readers.ReaderWriter.ReadList | packet/types/dynamic_list.py:14-32 | Reads items while any of the length is left |
| Readers.ReaderWriter.ReadPayload | packet/base_packet.py:28-42 | Reads every enabled field in turn under the shrinking budget |
| Readers.ReaderWriter.ReadNextPacket | servers/handler.py:354-358 | Reads one packet, from a plain socket or through a WebSocket, and leaves the stream right after it |
| Readers.ReaderWriter.Read | servers/websocket/handler.py:39-44 | Reads the next n bytes of all that can be read from a plain socket or a WebSocket, or fails when there are fewer |
| Readers.ReaderWriter.DecodeRequest | packet/subscribe.py:8-10 | Reads one subscribe request: topic, then qos |
| Readers.ReaderWriter.ReadBodyOf | packet/base_packet.py:28-42 | Reads the fields of a packet class, those that earlier fields enable included |
| Readers.ReaderWriter.ReadLoop | servers/handler.py:337-339 | Reads every packet of the stream up to the first that cannot be read |
| Readers.ReadableStream | servers/handler.py:337-339 | Those are all its packets when the stream is a list of packets |
| Frames.FrameRoundTrip | servers/websocket/frame.py:53-73 | A server frame is read back, whatever follows, if and only if its payload is shorter than 65535 bytes |
| Frames.ClientRoundTrip | servers/websocket/frame.py:75-120 | A client frame masked as section 5.3 of RFC 6455 asks is read back and unmasked, whatever follows, at every length |
| Frames.UnmaskInverts | servers/websocket/frame.py:75-78 | Masking twice with a key gives the data back |
| WireFormats.FrameHeader | servers/websocket/frame.py:80-87 | FIN is the top bit and the opcode the low half of the first byte, MASK the top bit of the second |
| WireFormats.FramePayload | servers/websocket/frame.py:75-101 | The payload follows the extended length and the key; of a masked one each byte is the sum modulo 2 of what was sent and the key's byte at its place modulo 4 |
| WireFormats.FrameWritten | servers/websocket/frame.py:53-73 | The bytes of a server frame: first byte, length in one, three or eight bytes, payload |
| WireFormats.ControlBytes | servers/websocket/handler.py:70-96 | A close frame is 0x88 0x00; a pong 0x8A, its length and the ping's payload |
| WireFormats.OpcodesRead | servers/websocket/handler.py:70-88 | Opcodes 0 and 2 are data, 9 and 10 ping and pong, and any other ends the connection |
| WireFormats.BigEndianDigits | servers/websocket/frame.py:60-68 | Extended lengths are written most significant byte first |
| WireFormats.FirstByteCounts | servers/websocket/frame.py:88-91 | And read that way, at any size |
| WireFormats.WordBytes | packet/types/static_int.py:8-25 | So are the two-byte integers of MQTT |
| Frames.ToBytes | servers/websocket/frame.py:53-73 | The loops write the first byte, the length code and the payload |
| WebSockets.WebsocketHandler.SendBytes | servers/websocket/handler.py:46-61 | Writes the message as the frames of `Fragments` |
| WebSockets.FragmentsHold | servers/websocket/handler.py:46-61 | Those frames hold the message, at most 2040 bytes each, FIN on the last only, continuation on all but the first |
| WireFormats.FragmentPlaces | servers/websocket/handler.py:46-61 | The i-th frame of a message holds its i-th 2040 bytes, the last one what is left |
| WebSockets.WebsocketHandler.RecvFrame | servers/websocket/frame.py:80-120 | Reads one frame off the socket and leaves the rest |
| WebSockets.WebsocketHandler.ReadFrames | servers/websocket/handler.py:70-88 | Is `ReadMessage`, on any input |
| WebSockets.ReadMessageOf | servers/websocket/handler.py:70-88 | Gives the payloads up to the end of the first message, one pong for each ping before it, and leaves the frames after it |
| WireFormats.ReadEndOf | servers/websocket/handler.py:70-88 | Where no further message ends, a read takes everything up to the frame that ends the connection; a close frame with FIN is answered by exactly one close frame, any other such frame by none, and the connection is alive no more |
| WebSockets.WebsocketHandler.Read | servers/websocket/handler.py:39-44 | Is `ReadBytes`, on any input |
| WebSockets.ReadBytesOf | servers/websocket/handler.py:39-44 | A read of n bytes gives the next n of the bytes buffered and available, or fails when there are not that many, as a plain stream would; nothing is lost or doubled for the next read |
| WebSockets.ReadBytesDrained | servers/websocket/handler.py:39-44 | The same on any input at all, of all that can be read from it |
| WebSockets.DrainedOf | servers/websocket/handler.py:70-88 | All that can be read from well-formed frames is what is buffered and available |
| WebSockets.ReadsAreSlices | servers/websocket/handler.py:39-44 | Any sequence of reads succeeds if and only if enough is available, and then gives consecutive slices of the sizes asked for |
| WebSockets.SentAvailable | servers/websocket/handler.py:46-61 | Messages sent one after another are available to their reader end to end |
| WebSockets.CarriedAvailable | servers/websocket/handler.py:70-88 | So are messages carried by any frames, masked or not, cut anywhere, with pings and pongs among them |
| WebSockets.MaskedCarries | servers/websocket/frame.py:75-120 | A client's frames, one for each piece of a message and each masked with its own key, carry the message |
| WebSockets.ControlIsNoise | servers/websocket/handler.py:82-85 | Pings and pongs between fragments change nothing of what is available |
| WebSockets.LongPongWritten | servers/websocket/handler.py:90-96 | A ping of 65535 bytes or more is answered with a frame that is not read back as it was written |
| Readers.PublishOverWebSocket | servers/websocket/handler.py:39-88 | Whenever the bytes of PUBLISH packets are what the frames make available, however cut, masked and interleaved with control frames, a read loop on the other end reads exactly those packets, field by field |
| Readers.PublishFromHandler | servers/websocket/handler.py:46-61 | So for the frames this handler sends, with pings and pongs anywhere between them |
| Readers.PublishFromClient | servers/websocket/handler.py:39-88 | And for the frames a client sends, each packet as one message, masked and cut as it likes, with pings and pongs among them |
| Handshakes.Handler.NextPacketId | servers/handler.py:107-114 | The least unused id below 65535, or TooManyPacketIds when there is none |
| Handshakes.Handler.CreatePacketCondition | servers/handler.py:181-191 | Is the machine's Arm, or raises when this very condition is waiting already |
| Handshakes.Handler.PacketNotify | servers/handler.py:200-208 | Meets some condition that waits for the packet if and only if there is one, and changes nothing else |
| Handshakes.Handler.RemoveCondition | servers/handler.py:193-198 | Is the machine's Disarm |
| Handshakes.Handler.HandlePacket | servers/handler.py:301-308 | Is the machine's reader step, in any state in which the packet is the next one |
| Handshakes.UnexpectedExactly | servers/handler.py:301-308 | UnexpectedPacketType is raised if and only if nobody waits for the acknowledgement; otherwise one condition that does is met, and no other changes |
| HandshakeSafety.Awaited | servers/handler.py:301-308 | An acknowledgement that arrives can only meet the condition of the one thread that asked for it |
| HandshakeSafety.StepKeeps | servers/handler.py:143-246 | Every step of the writer, the reader, a handler thread or the client keeps the invariant |
| HandshakeSafety.RunKeeps | servers/handler.py:143-246 | The invariant holds in every reachable state |
| HandshakeSafety.EveryAcknowledgementAwaited | servers/handler.py:200-208 | In every reachable state each acknowledgement on its way, from the packet that provokes it on, has an unmet condition registered, so UnexpectedPacketType is never raised |
| HandshakeSafety.HandshakesInOrder | servers/handler.py:143-246 | No trace leaves the order of the outbound handshake, nor of the inbound qos 2 handshake at any id |
| HandshakeDelivery.PublishesHandedOver | servers/handler.py:229-246 | In every run and at every qos, each PUBLISH is handed to the broker, with its id and message, as often as it was read, but for the threads that have still to do so |
| HandshakeDelivery.RepliesWritten | servers/handler.py:234-246 | In every run each PUBACK is written for a qos 1 message of its id that was handed over, each PUBCOMP for one of qos 2: never before, and as many but for the threads that have still to write theirs |
| HandshakeDelivery.InboundAtRest | servers/handler.py:229-246 | Once every thread is done, what was read is what was handed over, and that is what was acknowledged |
| HandshakeDelivery.MessagesWritten | servers/handler.py:143-179 | In every run the messages written are those queued, in order, but for the one in hand and those still queued |
| HandshakeDelivery.OutboundAtRest | servers/handler.py:143-179 | Once the writer is ready and nothing is queued, every message queued has been written, in order |
| HandshakeDelivery.ChannelsKeep | servers/handler.py:301-308 | In every run each side reads what the other wrote, in order, but for what is on its way |
| HandshakeDelivery.OutboundExchange | servers/handler.py:153-179 | The run in which a qos 2 message goes out: PUBLISH, PUBREC, PUBREL, PUBCOMP, and its id is free again |
| HandshakeDelivery.InboundExchange | servers/handler.py:239-246 | The run in which one comes in: PUBLISH, PUBREC, PUBREL, handed over, PUBCOMP |
| HandshakeSafety.ExactlyOnce | servers/handler.py:239-246 | Each inbound qos 2 message is handed to the broker exactly once, in order and before its PUBCOMP |
| HandshakeSafety.AtMostOneUnacknowledged | servers/handler.py:153-179 | At most one outbound message of qos above 0 is unacknowledged |
| HandshakeSafety.PubRelFollowsPubRec | servers/handler.py:172-177 | Every PUBREL follows the PUBREC of its id, with nothing outbound in between |
| HandshakeSafety.IdsAreZero | servers/handler.py:107-114 | Every PUBLISH of qos above 0 and every PUBREL that any run writes has id 0 |
| HandshakeSafety.ZeroIdWritten | servers/handler.py:153-169 | The run that queues a qos 1 message and writes its PUBLISH with id 0 |
| HandshakeSafety.NobodyWaitsTwice | servers/handler.py:181-191 | The guard against waiting twice never raises: a thread that makes a condition has none |

## Left out

- Concurrency of publish and subscribe: broker/broker.py:117-121 and 123-133 hold no lock across retain and enqueue, or
  snapshot and registration; the model takes each as one atomic step. That is an assumption.
- Consistency.QuiescentConsistency: is the corollary for the topics whose latest publish was retained;
  `Consistency.QuiescentConsistencyExact` speaks of all.
- "#" as a subscription: the multiplexer treats it as a literal node, and so does the model; rows have static topics,
  so such a subscription gets no deltas.
- RecursiveDefaultDicts.RecursiveDefaultDict.Assign: `branch = tree / topic` followed by setting `branch.leaf` is one
  method that walks and sets; a reference to an inner node is never handed out.
- RecursiveDefaultDicts.RecursiveDefaultDict.Shift: returns the leaf as a value; the in-place change of a client dict
  is `Shift` followed by `Assign` of the changed map.
- Multiplexer.BuildMessageData: the nested dict it writes through `ref` is a value here; what it holds is modelled, not
  the aliasing of the walk.
- models/topic.py: a topic is its list of nodes; the chain of parents and the cached strings are not modelled.
- JSON text and UTF-8: `stringify` and `loads` are taken as inverse on trees with string leaves, strings are byte
  sequences, and text that does not decode is not modelled. Key order inside a JSON object is left open.
- TreeManagers.TreeWorker.BulkCreate: the database's conflict handling is an upsert in list order; Django, its models
  and migrations are not modelled.
- TreeManagers.ConsumeTasks: one turn of the worker's loop; waiting, notification and shutdown are not modelled, nor is
  `ProcessManager.query`.
- Topics for tables ("@"): publishing and subscribing to one are routed to the table manager; tables/ itself is not part of
  this model, so its tasks are only kept and what `get_message` answers is a parameter.
- Brokers.Broker.AddClient: the old connection of an overridden id may still run its threads for a moment; what they do then
  is not modelled. A client's message queue is kept as all that was ever queued.
- TreeManagers.TreeManager.ProcessMessage: JSON keys that contain "/" are asked not to occur. Such a key is one node in the tree
  and several in the table, so it does not survive a restart (`Topics.SplitJoinExact`); the key "/" itself names no branch.
- Readers.ReaderWriter.Read: takes a finite stream and returns exactly n bytes or fails; servers/socket.py:32-45 asks the
  socket for the full size on each pass and may return more.
- WebSockets.ReadMessage: `recv` returns the bytes asked for, or what is left of a stream that ended. `end_connection` raises
  a class that needs an argument; whatever is raised is one error here. The HTTP upgrade is not modelled.
- Handshakes.Next: the client is assumed to answer each packet once, in any order and after any delay, and not to reuse a
  qos 2 id before its PUBCOMP. Closed connections are not modelled.
- Brokers.Broker.HandleSubscribe: response code 0x80 is not modelled, since `subscribe` always returns true.
- Sockets, threads, TLS, keep-alive, logging and configuration: input and output, or foreign code.

/** broker/broker.py, with the part of models/client.py and servers/handler.py that keeps a client's subscriptions. */
module Brokers {
  import opened Wrappers
  import opened Topics
  import opened Tries
  import opened Rows
  import opened Items
  import opened RecursiveDefaultDicts
  import opened Filters
  import opened Multiplexer
  import opened Subscriptions
  import opened TreeManagers
  import opened Consistency
  import opened Bytes
  import opened Snapshots
  import Flattening
  import Expansion
  import ApplicableRows
  import Persistence

  /** A connected client: its outgoing queue and the topic strings its handler has subscribed. */
  class Client {
    const id: string
    var messageQueue: Inbox
    var subscriptions: set<string>

    constructor (id: string)
      ensures this.id == id && messageQueue == [] && subscriptions == {}
    {
      this.id := id;
      messageQueue, subscriptions := [], {};
    }

    method QueueMessage(message: OutgoingMessage)
      modifies this`messageQueue
      ensures messageQueue == old(messageQueue) + [message]
    {
      messageQueue := messageQueue + [message];
    }
  }

  /** What a client has been sent of one message while the clients in todo are still to come. */
  function Share(message: Message, client: string, todo: set<string>): Inbox {
    if client in message.clients && client !in todo then
      [OutgoingMessage(JoinOf(message.filter), message.clients[client], message.data)]
    else []
  }

  /** What the table manager is given; its own work is not modelled. */
  datatype TableTask = TableTask(topic: Path, data: Payload, qos: nat)

  const TABLE_FLAG := '@'

  /** Whether a topic names a table. */
  predicate ForTable(topic: Path)
    requires topic != []
  {
    topic[0] != "" && topic[0][0] == TABLE_FLAG
  }

  /** A topic string names a table exactly when it starts with "@". */
  lemma TableTopics(topicStr: string)
    ensures ForTable(Split(topicStr)) <==> topicStr != "" && topicStr[0] == '@'
  {
    if topicStr != "" {
      assert Split(topicStr)[0] == if topicStr[0] == SEPARATOR then "" else [topicStr[0]] + Split(topicStr[1..])[0];
    }
  }

  class Broker {
    const subscriptions: RecursiveDefaultDict<Clients>
    const treeManager: TreeManager
    var broadcastQueue: seq<seq<Row>>
    var clients: map<string, Client>
    var tableTasks: seq<TableTask>
    ghost var since: map<(string, Path), Sync>
    ghost var transient: set<Path>
    ghost var stale: bool

    ghost predicate Valid()
      reads this, subscriptions, subscriptions.Repr, treeManager, treeManager.tree, treeManager.tree.Repr
    {
      && subscriptions.Valid() && subscriptions.defaultValue == map[] && Tidy(subscriptions.Value)
      && treeManager.Valid()
      && (forall k :: k in clients ==> clients[k].id == k)
      && (forall batch :: batch in broadcastQueue ==> TopicsOk(batch))
    }

    ghost function Inboxes(): map<string, Inbox>
      reads this, clients.Values
    {
      map k | k in clients :: clients[k].messageQueue
    }

    lemma InboxesAfter(before: map<string, Inbox>, messages: seq<Message>)
      requires before.Keys == clients.Keys
      requires forall k :: k in clients ==> clients[k].messageQueue == before[k] + Delivered(messages, k)
      ensures Inboxes() == map c | c in before :: before[c] + Delivered(messages, c)
    {
    }

    /** The state of the machine in Consistency that this broker is in. */
    ghost function Abs(): State
      reads this, subscriptions, treeManager, treeManager.tree, clients.Values
    {
      State(treeManager.tree.Value, subscriptions.Value, broadcastQueue, Inboxes(), since, transient)
    }

    constructor ()
      ensures Valid() && Starting(Abs()) && Abs().tree == Empty() && HandlersAgree()
    {
      subscriptions := new RecursiveDefaultDict<Clients>(map[]);
      treeManager := new TreeManager();
      broadcastQueue, clients, tableTasks, since, transient, stale := [], map[], [], map[], {}, false;
      new;
      EmptyTidy();
    }

    /** clients[client.id] = client, whoever had that id before. */
    method SetClient(client: Client)
      requires Valid() && client.messageQueue == []
      modifies this`clients, this`since
      ensures Valid() && Abs() == Next(old(Abs()), Connect(client.id))
      ensures clients == old(clients)[client.id := client]
    {
      hide RecursiveDefaultDict.Valid, RecursiveDefaultDict.Linked, TreeManager.Valid, Tidy, TopicsOk;
      clients := clients[client.id := client];
      since := map k | k in since && k.0 != client.id :: since[k];
      assert Inboxes() == old(Inboxes())[client.id := []];
    }

    /** A client without an id is not removed. */
    method RemoveClient(client: Client)
      requires Valid()
      modifies this`clients, this`since
      ensures Valid() && Abs() == if client.id == "" then old(Abs()) else Next(old(Abs()), Remove(client.id))
      ensures clients == if client.id == "" then old(clients) else old(clients) - {client.id}
    {
      hide RecursiveDefaultDict.Valid, RecursiveDefaultDict.Linked, TreeManager.Valid, Tidy, TopicsOk;
      if client.id != "" {
        clients := clients - {client.id};
        since := map k | k in since && k.0 != client.id :: since[k];
        assert Inboxes() == old(Inboxes()) - {client.id};
      }
    }

    /** The inner loop of process_outgoing_rows: one message to each of its clients that is still connected. */
    method QueueForClients(message: Message)
      requires forall k :: k in clients ==> clients[k].id == k
      modifies clients.Values
      ensures forall k :: k in clients ==>
        clients[k].messageQueue == old(clients[k].messageQueue) + Share(message, k, {}) &&
        clients[k].subscriptions == old(clients[k].subscriptions)
    {
      var todo := message.clients.Keys;
      while todo != {}
        invariant todo <= message.clients.Keys
        invariant forall k :: k in clients ==>
          clients[k].messageQueue == old(clients[k].messageQueue) + Share(message, k, todo) &&
          clients[k].subscriptions == old(clients[k].subscriptions)
        decreases todo
      {
        var clientId :| clientId in todo;
        if clientId in clients {
          clients[clientId].QueueMessage(OutgoingMessage(JoinOf(message.filter), message.clients[clientId], message.data));
        }
        todo := todo - {clientId};
      }
    }

    method QueueMessages(messages: seq<Message>)
      requires forall k :: k in clients ==> clients[k].id == k
      modifies clients.Values
      ensures forall k :: k in clients ==>
        clients[k].messageQueue == old(clients[k].messageQueue) + Delivered(messages, k) &&
        clients[k].subscriptions == old(clients[k].subscriptions)
    {
      hide Share;
      for i := 0 to |messages|
        invariant forall k :: k in clients ==>
          clients[k].messageQueue == old(clients[k].messageQueue) + Delivered(messages[..i], k) &&
          clients[k].subscriptions == old(clients[k].subscriptions)
      {
        assert messages[..i + 1][..i] == messages[..i];
        QueueForClients(messages[i]);
        forall k | k in clients
          ensures Delivered(messages[..i + 1], k) == Delivered(messages[..i], k) + Share(messages[i], k, {})
        {
          DeliveredShare(messages[..i + 1], k);
        }
      }
      assert messages[..|messages|] == messages;
    }

    /** Queue each message for each of its clients that is still connected. */
    method ProcessOutgoingRows(rows: seq<Row>) returns (ghost messages: seq<Message>)
      requires Valid() && TopicsOk(rows)
      modifies clients.Values
      ensures Valid() && AllPairs(messages, subscriptions.Value, rows)
      ensures forall k :: k in clients ==>
        clients[k].messageQueue == old(clients[k].messageQueue) + Delivered(messages, k) &&
        clients[k].subscriptions == old(clients[k].subscriptions)
    {
      hide RecursiveDefaultDict.Valid, RecursiveDefaultDict.Linked, TreeManager.Valid, Tidy, AllPairs, TopicsOk, Delivered;
      var all := CreateMessagesForSubscriptions(subscriptions, rows);
      messages := all;
      QueueMessages(all);
    }

    /** One turn of main_loop, with a batch waiting. */
    method DispatchNext() returns (ghost messages: seq<Message>)
      requires Valid() && broadcastQueue != []
      modifies this`broadcastQueue, clients.Values
      ensures Valid() && AllPairs(messages, old(subscriptions.Value), old(broadcastQueue[0]))
      ensures Abs() == Next(old(Abs()), Dispatch(messages))
      ensures HandlersAgree() <==> old(HandlersAgree())
    {
      hide RecursiveDefaultDict.Valid, RecursiveDefaultDict.Linked, TreeManager.Valid, Tidy, AllPairs, TopicsOk, Next, Delivered, Agreed,
        QosOf, HandlersAgree;
      ghost var before := Inboxes();
      var rows := broadcastQueue[0];
      assert rows in broadcastQueue;
      broadcastQueue := broadcastQueue[1..];
      messages := [];
      if rows != [] {
        messages := ProcessOutgoingRows(rows);
      } else {
        NoMessages(subscriptions.Value);
        assert forall k :: k in clients ==> clients[k].messageQueue + [] == clients[k].messageQueue;
      }
      InboxesAfter(before, messages);
      NextDispatch(old(Abs()), messages);
      SameAgreement();
    }

    twostate lemma SameAgreement()
      requires clients == old(clients) && subscriptions.Value == old(subscriptions.Value) && stale == old(stale)
      requires forall k :: k in clients ==> clients[k].subscriptions == old(clients[k].subscriptions)
      ensures HandlersAgree() <==> old(HandlersAgree())
    {
      hide Agreed, QosOf;
    }

    /** broadcast_queue.put(rows). */
    method Enqueue(rows: seq<Row>)
      requires Valid() && TopicsOk(rows)
      modifies this`broadcastQueue
      ensures Valid() && Abs() == old(Abs()).(queue := old(broadcastQueue) + [rows])
      ensures HandlersAgree() <==> old(HandlersAgree())
    {
      hide RecursiveDefaultDict.Valid, RecursiveDefaultDict.Linked, TreeManager.Valid, Tidy, TopicsOk, Agreed, QosOf;
      broadcastQueue := broadcastQueue + [rows];
    }

    /** rows = tree_manager.process_message(message). */
    method ProcessMessage(message: IncomingMessage) returns (r: Result<seq<Row>>)
      requires Valid() && IsTopic(message.topic) && ItemNodesOk(GraftData(message.tree))
      modifies treeManager`tasks, treeManager.tree.Repr
      ensures Valid() && fresh(treeManager.tree.Repr - old(treeManager.tree.Repr))
      ensures r.Ok? <==> Accepted(message, old(treeManager.tree.Value))
      ensures r.Ok? ==> RowsOf(r.value, old(treeManager.tree.Value), message) && TopicsOk(r.value)
      ensures Abs() == old(Abs()).(tree := if r.Ok? then RetainAll(old(Abs()).tree, r.value) else old(Abs()).tree)
      ensures treeManager.tasks == old(treeManager.tasks) + if r.Ok? then r.value else []
      ensures HandlersAgree() <==> old(HandlersAgree())
    {
      hide RecursiveDefaultDict.Valid, RecursiveDefaultDict.Linked, TreeManager.Valid, Tidy, RowsOf, PlainRows, RetainAll,
        TopicsOk, Agreed, QosOf, GraftData, ItemNodesOk, IsTopic, Flattening.Fits;
      r := treeManager.ProcessMessage(message);
      assert r.Err? ==> treeManager.tasks == old(treeManager.tasks) + [];
    }

    /** broadcast_queue.put(rows), once they are retained. */
    method PublishRetained(message: IncomingMessage) returns (r: Result<seq<Row>>)
      requires Valid() && IsTopic(message.topic) && ItemNodesOk(GraftData(message.tree))
      modifies this`broadcastQueue, this`since, this`transient, treeManager`tasks, treeManager.tree.Repr
      ensures Valid() && fresh(treeManager.tree.Repr - old(treeManager.tree.Repr))
      ensures r.Ok? <==> Accepted(message, old(treeManager.tree.Value))
      ensures r.Ok? ==> RowsOf(r.value, old(treeManager.tree.Value), message) && TopicsOk(r.value)
      ensures Abs() == if r.Ok? then Next(old(Abs()), Step.Publish(r.value)) else old(Abs())
      ensures treeManager.tasks == old(treeManager.tasks) + if r.Ok? then r.value else []
      ensures HandlersAgree() <==> old(HandlersAgree())
    {
      hide RecursiveDefaultDict.Valid, RecursiveDefaultDict.Linked, TreeManager.Valid, Valid, RowsOf, RetainAll, Next, TopicsOk,
        HandlersAgree, GraftData, ItemNodesOk, TopicsOf, Accepted, Inboxes, Seeing;
      r := ProcessMessage(message);
      if r.Ok? {
        Note(r.value, true);
        Enqueue(r.value);
        NextPublish(old(Abs()), r.value);
      }
    }

    /** broadcast_queue.put([message.as_single_row()]): broadcast without being stored. */
    method PublishOnce(message: IncomingMessage) returns (r: Result<seq<Row>>)
      requires Valid() && IsTopic(message.topic)
      modifies this`broadcastQueue, this`since, this`transient
      ensures Valid()
      ensures r.Ok? <==> IsStatic(message.topic)
      ensures r.Ok? ==> r.value == [Row(message.topic, message.data, message.qos)] && TopicsOk(r.value)
      ensures Abs() == if r.Ok? then Next(old(Abs()), Broadcast(r.value)) else old(Abs())
      ensures HandlersAgree() <==> old(HandlersAgree())
    {
      hide Valid, HandlersAgree, RecursiveDefaultDict.Valid, RecursiveDefaultDict.Linked, TreeManager.Valid, Next, TopicsOf, Seeing;
      r := AsSingleRow(message);
      if r.Ok? {
        Note(r.value, false);
        Enqueue(r.value);
        NextPublish(old(Abs()), r.value);
      }
    }

    /** Rows are on their way to every subscriber. */
    ghost method Note(rows: seq<Row>, retained: bool)
      requires Valid()
      modifies this`since, this`transient
      ensures Valid()
      ensures Abs() == old(Abs()).(
        since := Seeing(old(Abs()).since, rows),
        transient := if retained then old(Abs()).transient - TopicsOf(rows) else old(Abs()).transient + TopicsOf(rows))
      ensures HandlersAgree() <==> old(HandlersAgree())
    {
      hide RecursiveDefaultDict.Valid, RecursiveDefaultDict.Linked, TreeManager.Valid, Tidy, TopicsOk, Agreed, QosOf, Seeing;
      since := Seeing(since, rows);
      transient := if retained then transient - TopicsOf(rows) else transient + TopicsOf(rows);
    }

    /**
     A topic whose first node is empty is refused: whether it names a table is asked of the first node's first
     character. A message for a table goes to the table manager. Of the others, a retained one becomes one batch, retained
     and queued, and any other its single row, queued.
     */
    method Publish(message: IncomingMessage) returns (r: Result<seq<Row>>)
      requires Valid() && IsTopic(message.topic) && ItemNodesOk(GraftData(message.tree))
      modifies this`broadcastQueue, this`tableTasks, this`since, this`transient, treeManager`tasks, treeManager.tree.Repr
      ensures Valid() && fresh(treeManager.tree.Repr - old(treeManager.tree.Repr))
      ensures r.Ok? <==> message.topic[0] != "" && (ForTable(message.topic) || Accepts(message, old(treeManager.tree.Value)))
      ensures r.Ok? && ForTable(message.topic) ==> r.value == []
      ensures r.Ok? && !ForTable(message.topic) && message.retain ==> RowsOf(r.value, old(treeManager.tree.Value), message)
      ensures r.Ok? && !ForTable(message.topic) && !message.retain ==> r.value == [Row(message.topic, message.data, message.qos)]
      ensures Run(old(Abs()), if r.Ok? then PublishSteps(message, r.value) else [], Abs())
      ensures treeManager.tasks == old(treeManager.tasks) + if r.Ok? && message.retain then r.value else []
      ensures tableTasks == old(tableTasks) +
        if ForTable(message.topic) then [TableTask(message.topic, message.data, message.qos)] else []
      ensures HandlersAgree() <==> old(HandlersAgree())
    {
      hide RecursiveDefaultDict.Valid, RecursiveDefaultDict.Linked, TreeManager.Valid, Valid, RowsOf, PlainRows, Next, TopicsOk,
        HandlersAgree, Accepted, Run, Abs, Flattening.Fits, IsStatic;
      RunNothing(Abs());
      assert treeManager.tasks + [] == treeManager.tasks && tableTasks + [] == tableTasks;
      if message.topic[0] == "" {
        return Err(EmptyTopic);
      }
      if ForTable(message.topic) {
        AddTableTask(TableTask(message.topic, message.data, message.qos));
        return Ok([]);
      }
      if message.retain {
        r := PublishRetained(message);
      } else {
        r := PublishOnce(message);
      }
      if r.Ok? {
        PublishRun(old(Abs()), message, r.value);
      }
    }

    /** table_manager.add_tasks. */
    method AddTableTask(task: TableTask)
      requires Valid()
      modifies this`tableTasks
      ensures Valid() && Abs() == old(Abs()) && tableTasks == old(tableTasks) + [task]
      ensures HandlersAgree() <==> old(HandlersAgree())
    {
      hide RecursiveDefaultDict.Valid, RecursiveDefaultDict.Linked, TreeManager.Valid, Tidy, TopicsOk, Agreed, QosOf;
      tableTasks := tableTasks + [task];
    }

    /** Queue the snapshot a client asked for. */
    method SendSnapshot(client: Client, topic: Path, qos: nat) returns (r: Result<OutgoingMessage>)
      requires Valid() && IsTopic(topic) && client.id in clients && clients[client.id] == client
      modifies this`since, client`messageQueue
      ensures Valid()
      ensures Filtered(old(treeManager.tree.Value), topic, if r.Ok? then Ok(r.value.data) else Err(r.error))
      ensures r.Ok? ==> r.value == OutgoingMessage(Join(topic), qos, r.value.data)
      ensures r.Ok? ==> client.messageQueue == old(client.messageQueue) + [r.value]
      ensures Abs() == if r.Ok? then WithSnapshot(old(Abs()), client.id, topic, r.value) else old(Abs())
    {
      hide RecursiveDefaultDict.Valid, RecursiveDefaultDict.Linked, TreeManager.Valid, Tidy, TopicsOk, Filtered;
      r := treeManager.GetMessage(topic, qos);
      if r.Ok? {
        ghost var before := Inboxes();
        if EVERYTHING_CARD !in topic {
          since := since[(client.id, topic) := Sync(|client.messageQueue|, treeManager.tree.Value, Flat(broadcastQueue))];
        }
        client.QueueMessage(r.value);
        assert Inboxes() == before[client.id := client.messageQueue];
      }
    }

    /** client_set = subscriptions << nodes; client_set[client.id] = qos. */
    method Register(client: Client, topic: Path, qos: nat)
      requires Valid() && IsTopic(topic)
      modifies subscriptions.Repr
      ensures Valid() && fresh(subscriptions.Repr - old(subscriptions.Repr))
      ensures Abs() == Next(old(Abs()), Step.Subscribe(client.id, topic, qos))
    {
      hide RecursiveDefaultDict.Valid, RecursiveDefaultDict.Linked, TreeManager.Valid, Tidy, TopicsOk, Subscribed;
      SubscribeTidy(subscriptions.Value, topic, client.id, qos);
      Subscriptions.AddClient(subscriptions, topic, client.id, qos);
    }

    /** Queue what the table manager answers, which says nothing of the tree. */
    method SendTable(client: Client, topic: Path, qos: nat, answer: bytes)
      requires Valid() && IsTopic(topic) && client.id in clients && clients[client.id] == client
      modifies this`since, client`messageQueue
      ensures Valid() && client.messageQueue == old(client.messageQueue) + [OutgoingMessage(Join(topic), qos, Text(answer))]
      ensures Abs() == WithMessage(old(Abs()), client.id, topic, OutgoingMessage(Join(topic), qos, Text(answer)))
    {
      hide RecursiveDefaultDict.Valid, RecursiveDefaultDict.Linked, TreeManager.Valid, Tidy, TopicsOk;
      ghost var before := Inboxes();
      since := since - {(client.id, topic)};
      client.QueueMessage(OutgoingMessage(Join(topic), qos, Text(answer)));
      assert Inboxes() == before[client.id := client.messageQueue];
    }

    /**
     Register a subscription, sending the snapshot first when the client asks for one, else, for a table, what the table
     manager answers; without a sync the topic's first node must have a character to tell whether it names a table.
     */
    method Subscribe(client: Client, topicStr: string, qos: nat, tree: bool, answer: bytes)
      returns (r: Result<bool>, ghost sent: Item)
      requires Valid() && client.id in clients && clients[client.id] == client
      modifies this`since, client`messageQueue, subscriptions.Repr
      ensures Valid() && fresh(subscriptions.Repr - old(subscriptions.Repr))
      ensures r.Err? <==> if tree then Raises(old(treeManager.tree.Value), Split(topicStr)) else Split(topicStr)[0] == ""
      ensures !tree ==> sent == Text(answer)
      ensures var step := RequestStep(client.id, Split(topicStr), qos, tree, sent);
              && (r.Ok? ==> Enabled(old(Abs()), step))
              && Abs() == if r.Ok? then Next(old(Abs()), step) else old(Abs())
      ensures r.Ok? && (tree || ForTable(Split(topicStr))) ==>
        client.messageQueue == old(client.messageQueue) + [OutgoingMessage(topicStr, qos, sent)]
      ensures r.Ok? ==> subscriptions.Value == Subscribed(old(subscriptions.Value), Split(topicStr), client.id, qos)
    {
      hide RecursiveDefaultDict.Valid, RecursiveDefaultDict.Linked, TreeManager.Valid, Valid, Next, Subscribed, Filtered, WithSnapshot,
        WithMessage, Raises, Enabled, Inboxes;
      var topic := Split(topicStr);
      ghost var before := Abs();
      Connected(client);
      JoinSplit(topicStr);
      sent := Text(answer);
      if tree {
        var message := SendSnapshot(client, topic, qos);
        FilteredRaises(before.tree, topic, if message.Ok? then Ok(message.value.data) else Err(message.error));
        if message.Err? {
          return Err(message.error), sent;
        }
        sent := message.value.data;
        SnapshotThenSubscribe(before, client.id, topic, qos, message.value);
      } else if topic[0] == "" {
        return Err(EmptyTopic), sent;
      } else if ForTable(topic) {
        SendTable(client, topic, qos, answer);
        MessageThenSubscribe(before, client.id, topic, qos, Text(answer));
      }
      NextSubscribe(Abs(), client.id, topic, qos);
      Register(client, topic, qos);
      r := Ok(true);
    }

    lemma Connected(client: Client)
      requires client.id in clients
      ensures client.id in Abs().inboxes
    {
    }

    /** The loop body of unsubscribe. */
    method UnsubscribeOne(client: Client, topicStr: string)
      requires Valid()
      modifies this`since, subscriptions.Repr
      ensures Valid() && fresh(subscriptions.Repr - old(subscriptions.Repr))
      ensures Abs() == Next(old(Abs()), Step.Unsubscribe(client.id, Split(topicStr)))
    {
      hide RecursiveDefaultDict.Valid, RecursiveDefaultDict.Linked, TreeManager.Valid, Tidy, TopicsOk, Unsubscribed, Next, Inboxes;
      UnsubscribeTidy(subscriptions.Value, Split(topicStr), client.id);
      var found := Subscriptions.RemoveClient(subscriptions, Split(topicStr), client.id);
      since := since - {(client.id, Split(topicStr))};
      SameInboxes();
      NextUnsubscribe(old(Abs()), client.id, Split(topicStr));
    }

    method Unsubscribe(client: Client, topics: seq<string>)
      requires Valid()
      modifies this`since, subscriptions.Repr
      ensures Valid() && fresh(subscriptions.Repr - old(subscriptions.Repr))
      ensures subscriptions.Value == UnsubscribedAll(old(subscriptions.Value), topics, client.id)
      ensures Run(old(Abs()), UnsubscribeSteps(client.id, topics), Abs())
    {
      hide RecursiveDefaultDict.Valid, RecursiveDefaultDict.Linked, TreeManager.Valid, Valid, Unsubscribed, Next, Run, Enabled;
      RunNothing(Abs());
      assert UnsubscribeSteps(client.id, topics[..0]) == [];
      for i := 0 to |topics|
        invariant Valid() && fresh(subscriptions.Repr - old(subscriptions.Repr))
        invariant subscriptions.Value == UnsubscribedAll(old(subscriptions.Value), topics[..i], client.id)
        invariant Run(old(Abs()), UnsubscribeSteps(client.id, topics[..i]), Abs())
      {
        assert topics[..i + 1][..i] == topics[..i];
        NextUnsubscribe(Abs(), client.id, Split(topics[i]));
        RunOn(old(Abs()), UnsubscribeSteps(client.id, topics[..i]), Abs(), Step.Unsubscribe(client.id, Split(topics[i])));
        assert UnsubscribeSteps(client.id, topics[..i + 1]) ==
               UnsubscribeSteps(client.id, topics[..i]) + [Step.Unsubscribe(client.id, Split(topics[i]))];
        UnsubscribeOne(client, topics[i]);
      }
      assert topics[..|topics|] == topics;
    }

    // -------------------------------------------------------------- servers/handler.py

    lemma Ids()
      requires Valid()
      ensures forall k :: k in clients ==> clients[k].id == k
    {
    }

    /**
     Every handler's set is the filters its id is subscribed to, and no other id is subscribed at all; the set of the empty
     id is stale from when it disconnects, since it is not removed, to when it connects again.
     */
    ghost predicate HandlersAgree()
      reads this, subscriptions, clients.Values
    {
      && (forall k :: k in clients ==> Agreed(subscriptions.Value, k, clients[k].subscriptions, stale && k == ""))
      && (forall k, filter: Path :: k !in clients ==> QosOf(subscriptions.Value, filter, k) == None)
    }

    /** One request of a SUBSCRIBE packet: a leading separator asks for the snapshot, which is queued at once. */
    method HandleSubscribeRequest(client: Client, topic: string, qos: nat, answer: bytes) returns (r: Result<nat>, ghost sent: Item)
      requires Valid() && HandlersAgree() && client.id in clients && clients[client.id] == client
      modifies this`since, client, subscriptions.Repr
      ensures Valid() && HandlersAgree() && fresh(subscriptions.Repr - old(subscriptions.Repr))
      ensures r.Ok? <==> !Refused(old(treeManager.tree.Value), (topic, qos))
      ensures r.Ok? ==> topic != "" && r.value == qos
      ensures r.Ok? ==>
        var step := RequestStep(client.id, Split(Unprefixed(topic)), qos, topic[0] == SEPARATOR, sent);
        Enabled(old(Abs()), step) && Abs() == Next(old(Abs()), step)
      ensures r.Ok? && topic[0] != SEPARATOR ==> sent == Text(answer)
      ensures r.Ok? && (topic[0] == SEPARATOR || ForTable(Split(topic))) ==>
        client.messageQueue == old(client.messageQueue) + [OutgoingMessage(Unprefixed(topic), qos, sent)]
      ensures r.Ok? ==>
        client.subscriptions == old(client.subscriptions) + {Unprefixed(topic)} &&
        subscriptions.Value == Subscribed(old(subscriptions.Value), Split(Unprefixed(topic)), client.id, qos)
      ensures r.Err? ==> Abs() == old(Abs()) && client.subscriptions == old(client.subscriptions)
    {
      hide RecursiveDefaultDict.Valid, RecursiveDefaultDict.Linked, TreeManager.Valid, Valid, Subscribed, Next, Agreed, IsSnapshot, QosOf,
        Raises, Enabled, Inboxes;
      sent := Blank;
      if topic == [] {
        return Err(EmptyTopic), sent;
      }
      var tree := topic[0] == SEPARATOR;
      var topicStr := if tree then topic[1..] else topic;
      if !tree {
        FirstNode(topic);
      }
      var accepted, item := Subscribe(client, topicStr, qos, tree, answer);
      sent := item;
      if accepted.Err? {
        return Err(accepted.error), sent;
      }
      label Registered:
      client.subscriptions := client.subscriptions + {topicStr};
      assert Inboxes() == old@Registered(Inboxes()) by {
        SameInboxes@Registered();
      }
      Ids();
      r := Ok(qos);
      forall k | k in clients
        ensures Agreed(subscriptions.Value, k, clients[k].subscriptions, stale && k == "")
      {
        SubscribeAgrees(old(subscriptions.Value), client.id, topicStr, qos, k, old(clients[k].subscriptions), stale && k == "");
      }
      forall k, filter: Path | k !in clients
        ensures QosOf(subscriptions.Value, filter, k) == None
      {
        SubscribeUpdates(old(subscriptions.Value), Split(topicStr), client.id, qos, filter, k);
      }
    }

    twostate lemma SameInboxes()
      requires clients == old(clients) && forall k :: k in clients ==> clients[k].messageQueue == old(clients[k].messageQueue)
      ensures Inboxes() == old(Inboxes())
    {
    }

    /** The SUBACK has the qos of every request; a request that raises ends the handler with those before it done. */
    method HandleSubscribe(client: Client, requests: seq<(string, nat)>, answers: string -> bytes)
      returns (r: Result<seq<nat>>, ghost steps: seq<Step>)
      requires Valid() && HandlersAgree() && client.id in clients && clients[client.id] == client
      modifies this`since, client, subscriptions.Repr
      ensures Valid() && HandlersAgree() && fresh(subscriptions.Repr - old(subscriptions.Repr))
      ensures Run(old(Abs()), steps, Abs())
      ensures |steps| <= |requests| && (r.Ok? <==> |steps| == |requests|)
      ensures TakenUpTo(old(treeManager.tree.Value), requests, |steps|)
      ensures forall i :: 0 <= i < |steps| ==> Requested(steps[i], client.id, requests[i], answers)
      ensures r.Ok? ==> r.value == seq(|requests|, i requires 0 <= i < |requests| => requests[i].1)
      ensures r.Ok? ==> forall q :: q in requests ==> q.0 != ""
      ensures r.Ok? ==> client.subscriptions == old(client.subscriptions) + SubscribedTopics(requests)
      ensures r.Ok? ==> subscriptions.Value == SubscribedAll(old(subscriptions.Value), requests, client.id)
    {
      hide Valid, HandlersAgree, RecursiveDefaultDict.Valid, RecursiveDefaultDict.Linked, TreeManager.Valid, Run, Enabled, Next, Raises,
        Subscribed, Inboxes, Requested, RequestStep, Refused, SubscribedTopics, SubscribedAll, Unprefixed, Split;
      var responseCodes: seq<nat> := [];
      steps := [];
      RunNothing(Abs());
      NoRequests(subscriptions.Value, client.id);
      for i := 0 to |requests|
        invariant Valid() && HandlersAgree() && fresh(subscriptions.Repr - old(subscriptions.Repr))
        invariant Run(old(Abs()), steps, Abs()) && |steps| == i && treeManager.tree.Value == old(treeManager.tree.Value)
        invariant forall j :: 0 <= j < i ==> !Refused(old(treeManager.tree.Value), requests[j])
        invariant forall j :: 0 <= j < i ==> Requested(steps[j], client.id, requests[j], answers)
        invariant |responseCodes| == i && forall j :: 0 <= j < i ==> responseCodes[j] == requests[j].1
        invariant forall q :: q in requests[..i] ==> q.0 != ""
        invariant client.subscriptions == old(client.subscriptions) + SubscribedTopics(requests[..i])
        invariant subscriptions.Value == SubscribedAll(old(subscriptions.Value), requests[..i], client.id)
      {
        ghost var before := Abs();
        var code, sent := HandleSubscribeRequest(client, requests[i].0, requests[i].1, answers(requests[i].0));
        if code.Err? {
          return Err(code.error), steps;
        }
        ghost var step := RequestStep(client.id, Split(Unprefixed(requests[i].0)), requests[i].1, requests[i].0[0] == SEPARATOR, sent);
        RequestedStep(client.id, requests[i], answers, sent);
        RequestKeepsTree(before, client.id, Split(Unprefixed(requests[i].0)), requests[i].1, requests[i].0[0] == SEPARATOR, sent);
        RunOn(old(Abs()), steps, before, step);
        steps := steps + [step];
        responseCodes := responseCodes + [code.value];
        OneMoreRequest(old(subscriptions.Value), requests, i, client.id);
      }
      assert requests[..|requests|] == requests;
      r := Ok(responseCodes);
    }

    /** One topic of an UNSUBSCRIBE packet, its sync prefix, if any, taken as part of it. */
    method HandleUnsubscribeTopic(client: Client, topic: string)
      requires Valid() && HandlersAgree() && client.id in clients && clients[client.id] == client
      modifies this`since, client`subscriptions, subscriptions.Repr
      ensures Valid() && HandlersAgree() && fresh(subscriptions.Repr - old(subscriptions.Repr))
      ensures client.subscriptions == old(client.subscriptions) - {topic}
      ensures subscriptions.Value == Unsubscribed(old(subscriptions.Value), Split(topic), client.id)
      ensures Abs() == Next(old(Abs()), Step.Unsubscribe(client.id, Split(topic)))
    {
      hide RecursiveDefaultDict.Valid, RecursiveDefaultDict.Linked, TreeManager.Valid, Valid, Unsubscribed, Next, Agreed, QosOf, Tidy,
        Inboxes, Split;
      TidyNow();
      UnsubscribeOne(client, topic);
      NextUnsubscribe(old(Abs()), client.id, Split(topic));
      label Removed:
      client.subscriptions := client.subscriptions - {topic};
      assert Inboxes() == old@Removed(Inboxes()) by {
        SameInboxes@Removed();
      }
      Ids();
      TidyWellFormed(old(subscriptions.Value));
      forall k | k in clients
        ensures Agreed(subscriptions.Value, k, clients[k].subscriptions, stale && k == "")
      {
        UnsubscribeAgrees(old(subscriptions.Value), client.id, topic, k, old(clients[k].subscriptions), stale && k == "");
      }
      forall k, filter: Path | k !in clients
        ensures QosOf(subscriptions.Value, filter, k) == None
      {
        UnsubscribeRemoves(old(subscriptions.Value), Split(topic), client.id, filter, k);
      }
    }

    lemma TidyNow()
      requires Valid()
      ensures Tidy(subscriptions.Value)
    {
    }

    /** An UNSUBACK with the packet's id is written for each topic. */
    method HandleUnsubscribe(client: Client, id: nat, topics: seq<string>) returns (acknowledged: seq<nat>)
      requires Valid() && HandlersAgree() && client.id in clients && clients[client.id] == client
      modifies this`since, client`subscriptions, subscriptions.Repr
      ensures Valid() && HandlersAgree() && fresh(subscriptions.Repr - old(subscriptions.Repr))
      ensures Run(old(Abs()), UnsubscribeSteps(client.id, topics), Abs())
      ensures client.subscriptions == old(client.subscriptions) - (set topic | topic in topics)
      ensures subscriptions.Value == UnsubscribedAll(old(subscriptions.Value), topics, client.id)
      ensures acknowledged == seq(|topics|, _ => id)
    {
      hide Valid, HandlersAgree, RecursiveDefaultDict.Valid, RecursiveDefaultDict.Linked, TreeManager.Valid, Unsubscribed, Run, Enabled,
        Next, Inboxes;
      RunNothing(Abs());
      acknowledged := [];
      assert UnsubscribeSteps(client.id, topics[..0]) == [];
      for i := 0 to |topics|
        invariant Valid() && HandlersAgree() && fresh(subscriptions.Repr - old(subscriptions.Repr))
        invariant Run(old(Abs()), UnsubscribeSteps(client.id, topics[..i]), Abs())
        invariant client.subscriptions == old(client.subscriptions) - (set topic | topic in topics[..i])
        invariant subscriptions.Value == UnsubscribedAll(old(subscriptions.Value), topics[..i], client.id)
        invariant acknowledged == seq(i, _ => id)
      {
        assert topics[..i + 1][..i] == topics[..i] && topics[..i + 1] == topics[..i] + [topics[i]];
        NextUnsubscribe(Abs(), client.id, Split(topics[i]));
        RunOn(old(Abs()), UnsubscribeSteps(client.id, topics[..i]), Abs(), Step.Unsubscribe(client.id, Split(topics[i])));
        assert UnsubscribeSteps(client.id, topics[..i + 1]) ==
               UnsubscribeSteps(client.id, topics[..i]) + [Step.Unsubscribe(client.id, Split(topics[i]))];
        HandleUnsubscribeTopic(client, topics[i]);
        acknowledged := acknowledged + [id];
      }
      assert topics[..|topics|] == topics;
    }

    /** The start of handle_disconnected: unsubscribe everything the handler holds, in any order. */
    method UnsubscribeHeld(client: Client) returns (ghost topics: seq<string>)
      requires Valid() && client.id in clients && clients[client.id] == client
      requires Agreed(subscriptions.Value, client.id, client.subscriptions, true)
      modifies this`since, subscriptions.Repr
      ensures Valid() && fresh(subscriptions.Repr - old(subscriptions.Repr))
      ensures forall topic :: topic in topics <==> topic in client.subscriptions
      ensures Run(old(Abs()), UnsubscribeSteps(client.id, topics), Abs())
      ensures Gone(old(subscriptions.Value), subscriptions.Value, client.id)
    {
      hide RecursiveDefaultDict.Valid, RecursiveDefaultDict.Linked, TreeManager.Valid, Valid, UnsubscribedAll, Next, Gone, Agreed, QosOf,
        Tidy, Inboxes, Split, Run;
      TidyNow();
      var held := InAnyOrder(client.subscriptions);
      LeavesGone(subscriptions.Value, client.id, client.subscriptions, held);
      topics := held;
      Unsubscribe(client, held);
    }

    /** handle_disconnected before the last will: unsubscribe all and remove the client, unless its id is empty. */
    method Leave(client: Client) returns (ghost topics: seq<string>)
      requires Valid() && HandlersAgree() && client.id in clients && clients[client.id] == client
      modifies this`since, this`clients, this`stale, subscriptions.Repr
      ensures Valid() && HandlersAgree() && fresh(subscriptions.Repr - old(subscriptions.Repr))
      ensures Run(old(Abs()), LeaveSteps(client.id, topics), Abs())
      ensures forall topic :: topic in topics <==> topic in client.subscriptions
      ensures clients == if client.id == "" then old(clients) else old(clients) - {client.id}
      ensures Gone(old(subscriptions.Value), subscriptions.Value, client.id)
      ensures stale == if client.id == "" then client.subscriptions != {} else old(stale)
      ensures client.id == "" ==> (Agreed(subscriptions.Value, "", client.subscriptions, false) <==> !stale)
    {
      hide RecursiveDefaultDict.Valid, RecursiveDefaultDict.Linked, TreeManager.Valid, Valid, UnsubscribedAll, Next, Gone, Agreed, QosOf,
        Tidy, Inboxes, Split, Run, Enabled, HandlersAgree;
      ghost var before, held := subscriptions.Value, clients;
      EachAgrees();
      topics := UnsubscribeHeld(client);
      ghost var unsubscribed := Abs();
      RemoveClient(client);
      if client.id == "" {
        SetStale(client.subscriptions != {});
        assert UnsubscribeSteps(client.id, topics) + [] == UnsubscribeSteps(client.id, topics);
      } else {
        RemoveEnabled(unsubscribed, client.id);
        RunOn(old(Abs()), UnsubscribeSteps(client.id, topics), unsubscribed, Remove(client.id));
      }
      StillAgree(before, held, client, old(stale));
    }

    ghost method SetStale(value: bool)
      requires Valid()
      modifies this`stale
      ensures Valid() && Abs() == old(Abs()) && stale == value
    {
      hide RecursiveDefaultDict.Valid, RecursiveDefaultDict.Linked, TreeManager.Valid, Tidy, TopicsOk;
      stale := value;
    }

    /** For the worker's machine what happened since is one step that retains these rows. */
    twostate predicate RetainedForWorker(new rows: seq<Row>)
      reads treeManager, treeManager.tree
    {
      TopicsOk(rows) && forall s: Persistence.State :: old(treeManager.In(s)) ==>
        treeManager.In(Persistence.Next(s, Persistence.Retain(rows)))
    }

    /** A run of the broker is such a step, with the rows it published to be retained. */
    twostate lemma GivenToWorker(new steps: seq<Step>)
      requires Run(old(Abs()), steps, Abs()) && treeManager.tasks == old(treeManager.tasks) + RetainedRows(steps)
      ensures RetainedForWorker(RetainedRows(steps))
    {
      hide Run, RetainedRows, TopicsOk, RetainAll;
      TreeOfRun(old(Abs()), steps, Abs());
    }

    /** A message a handler publishes; one that is refused takes no step. */
    method HandlePublish(message: IncomingMessage) returns (ghost steps: seq<Step>)
      requires Valid() && IsTopic(message.topic) && ItemNodesOk(GraftData(message.tree))
      modifies this`since, this`broadcastQueue, this`tableTasks, this`transient, treeManager`tasks, treeManager.tree.Repr
      ensures Valid() && Run(old(Abs()), steps, Abs()) && fresh(treeManager.tree.Repr - old(treeManager.tree.Repr))
      ensures PublishesAs(steps, message, old(treeManager.tree.Value))
      ensures tableTasks == old(tableTasks) + TasksOf(message)
      ensures treeManager.tasks == old(treeManager.tasks) + RetainedRows(steps)
      ensures HandlersAgree() <==> old(HandlersAgree())
    {
      hide RecursiveDefaultDict.Valid, RecursiveDefaultDict.Linked, TreeManager.Valid, Valid, Run, HandlersAgree, Abs, RowsOf, Accepts,
        RetainedRows, GraftData, ItemNodesOk;
      var r := Publish(message);
      steps := if r.Ok? then PublishSteps(message, r.value) else [];
      if r.Ok? {
        PublishRetains(message, r.value);
      } else {
        NothingRetainedBy([]);
      }
    }

    /** handle_disconnected, not overridden: the client leaves, and its last will, if it has one, is published. */
    method HandleDisconnected(client: Client, lastWill: Option<IncomingMessage>)
      returns (ghost topics: seq<string>, ghost published: seq<Step>)
      requires Valid() && HandlersAgree() && client.id in clients && clients[client.id] == client
      requires lastWill.Some? ==> Acceptable(PublishPacket(lastWill.value))
      modifies this`since, this`clients, this`stale, this`broadcastQueue, this`tableTasks, this`transient, subscriptions.Repr,
               treeManager`tasks, treeManager.tree.Repr
      ensures Valid() && HandlersAgree() && Run(old(Abs()), LeaveSteps(client.id, topics) + published, Abs())
      ensures fresh(subscriptions.Repr - old(subscriptions.Repr)) && fresh(treeManager.tree.Repr - old(treeManager.tree.Repr))
      ensures forall topic :: topic in topics <==> topic in client.subscriptions
      ensures if lastWill.Some? then PublishesAs(published, lastWill.value, old(treeManager.tree.Value)) else published == []
      ensures tableTasks == old(tableTasks) + if lastWill.Some? then TasksOf(lastWill.value) else []
      ensures clients == if client.id == "" then old(clients) else old(clients) - {client.id}
      ensures Gone(old(subscriptions.Value), subscriptions.Value, client.id)
      ensures stale == if client.id == "" then client.subscriptions != {} else old(stale)
      ensures treeManager.tasks == old(treeManager.tasks) + RetainedRows(published)
      ensures RetainedForWorker(RetainedRows(published))
    {
      hide RecursiveDefaultDict.Valid, RecursiveDefaultDict.Linked, TreeManager.Valid, Valid, Gone, Run, HandlersAgree, LeaveSteps, Agreed,
        Abs, RetainedForWorker, RetainedRows, PublishesAs, TasksOf, GraftData, ItemNodesOk;
      ghost var start := Abs();
      AbsTree();
      topics := Leave(client);
      LeavingRetains(client.id, topics);
      published := [];
      assert LeaveSteps(client.id, topics) + [] == LeaveSteps(client.id, topics);
      assert treeManager.tasks + [] == treeManager.tasks && tableTasks + [] == tableTasks;
      NothingRetainedBy([]);
      ghost var left := Abs();
      AbsTree();
      SameTree(start, LeaveSteps(client.id, topics), left);
      if lastWill.Some? {
        published := HandlePublish(lastWill.value);
        RunJoin(old(Abs()), LeaveSteps(client.id, topics), left, published, Abs());
      }
      RetainedJoin(LeaveSteps(client.id, topics), published);
      assert [] + RetainedRows(published) == RetainedRows(published);
      GivenToWorker(LeaveSteps(client.id, topics) + published);
    }

    lemma AbsTree()
      ensures Abs().tree == treeManager.tree.Value
    {
    }

    /** An earlier connection with the same id is overridden: it is disconnected, and leaves no subscription behind. */
    method AddClient(client: Client) returns (ghost steps: seq<Step>)
      requires Valid() && HandlersAgree() && client.messageQueue == [] && client.subscriptions == {}
      modifies this`clients, this`since, this`stale, subscriptions.Repr
      ensures Valid() && HandlersAgree() && fresh(subscriptions.Repr - old(subscriptions.Repr))
      ensures Run(old(Abs()), steps, Abs())
      ensures clients == old(clients)[client.id := client]
      ensures Gone(old(subscriptions.Value), subscriptions.Value, client.id)
      ensures stale == (old(stale) && client.id != "")
    {
      hide RecursiveDefaultDict.Valid, RecursiveDefaultDict.Linked, TreeManager.Valid, Valid, Next, Gone, Agreed, QosOf, Tidy, Inboxes, Run,
        Enabled, HandlersAgree;
      steps := [];
      ghost var before := subscriptions.Value;
      ghost var held := clients;
      RunNothing(Abs());
      EachAgrees();
      if client.id in clients {
        ghost var topics := UnsubscribeHeld(clients[client.id]);
        steps := UnsubscribeSteps(client.id, topics);
      } else {
        AbsentGone(client.id);
      }
      ghost var unsubscribed := Abs();
      SetClient(client);
      RemoveEnabled(unsubscribed, client.id);
      RunOn(old(Abs()), steps, unsubscribed, Connect(client.id));
      steps := steps + [Connect(client.id)];
      SetStale(stale && client.id != "");
      NewAgrees(before, held, client, old(stale));
    }

    lemma EachAgrees()
      requires Valid() && HandlersAgree()
      ensures forall k :: k in clients ==>
        clients[k].id == k && Agreed(subscriptions.Value, k, clients[k].subscriptions, stale && k == "") &&
        Agreed(subscriptions.Value, k, clients[k].subscriptions, true)
      ensures forall k, filter: Path :: k !in clients ==> QosOf(subscriptions.Value, filter, k) == None
    {
    }

    lemma StillAgree(before: Trie<Clients>, held: map<string, Client>, left: Client, was: bool)
      requires left.id in held && held[left.id] == left && Gone(before, subscriptions.Value, left.id)
      requires clients == if left.id == "" then held else held - {left.id}
      requires stale == if left.id == "" then left.subscriptions != {} else was
      requires forall k :: k in held ==> Agreed(before, k, held[k].subscriptions, was && k == "")
      requires forall k, filter: Path :: k !in held ==> QosOf(before, filter, k) == None
      ensures HandlersAgree()
      ensures left.id == "" ==> (Agreed(subscriptions.Value, "", left.subscriptions, false) <==> !stale)
    {
      forall k | k in clients
        ensures Agreed(subscriptions.Value, k, clients[k].subscriptions, stale && k == "")
      {
        if k != left.id {
          GoneAgrees(before, subscriptions.Value, left.id, k, clients[k].subscriptions, was && k == "");
        }
      }
    }

    lemma NewAgrees(before: Trie<Clients>, held: map<string, Client>, client: Client, was: bool)
      requires Gone(before, subscriptions.Value, client.id) && clients == held[client.id := client] && client.subscriptions == {}
      requires stale == (was && client.id != "")
      requires forall k :: k in held ==> Agreed(before, k, held[k].subscriptions, was && k == "")
      requires forall k, filter: Path :: k !in held ==> QosOf(before, filter, k) == None
      ensures HandlersAgree()
    {
      forall k | k in clients && k != client.id
        ensures Agreed(subscriptions.Value, k, clients[k].subscriptions, stale && k == "")
      {
        GoneAgrees(before, subscriptions.Value, client.id, k, clients[k].subscriptions, was && k == "");
      }
    }

    lemma AbsentGone(id: string)
      requires HandlersAgree() && id !in clients
      ensures Gone(subscriptions.Value, subscriptions.Value, id)
    {
    }

    /** A packet of a linked client, as its handler thread runs: one that fails takes only its own thread along. */
    method HandlePacket(client: Client, packet: ClientPacket, answers: string -> bytes) returns (ghost steps: seq<Step>)
      requires Valid() && HandlersAgree() && client.id in clients && clients[client.id] == client && Acceptable(packet)
      modifies this`since, this`broadcastQueue, this`tableTasks, this`transient, client, subscriptions.Repr,
               treeManager`tasks, treeManager.tree.Repr
      ensures Valid() && HandlersAgree() && Run(old(Abs()), steps, Abs())
      ensures fresh(subscriptions.Repr - old(subscriptions.Repr)) && fresh(treeManager.tree.Repr - old(treeManager.tree.Repr))
      ensures HandledAs(steps, client.id, packet, old(treeManager.tree.Value), answers)
      ensures tableTasks == old(tableTasks) + PacketTasks(packet)
      ensures treeManager.tasks == old(treeManager.tasks) + RetainedRows(steps)
    {
      hide RecursiveDefaultDict.Valid, RecursiveDefaultDict.Linked, TreeManager.Valid, Valid, Run, HandlersAgree, Abs, SubscribedAll,
        UnsubscribedAll, PublishesAs, TakenUpTo, Requested, TasksOf, GraftData, ItemNodesOk;
      assert tableTasks + [] == tableTasks && treeManager.tasks + [] == treeManager.tasks;
      match packet {
        case SubscribePacket(requests) =>
          var codes, taken := HandleSubscribe(client, requests, answers);
          steps := taken;
          SubscribingRetains(steps, client.id, requests, answers);
        case UnsubscribePacket(id, topics) =>
          var acknowledged := HandleUnsubscribe(client, id, topics);
          steps := UnsubscribeSteps(client.id, topics);
          UnsubscribingRetains(client.id, topics);
        case PublishPacket(message) =>
          steps := HandlePublish(message);
      }
    }

    /** Packets one after another are one run of the machine, each on the tree the packets before it left. */
    method HandlePackets(client: Client, packets: seq<ClientPacket>, answers: string -> bytes) returns (ghost parts: seq<seq<Step>>)
      requires Valid() && HandlersAgree() && client.id in clients && clients[client.id] == client
      requires forall packet :: packet in packets ==> Acceptable(packet)
      modifies this`since, this`broadcastQueue, this`tableTasks, this`transient, client, subscriptions.Repr,
               treeManager`tasks, treeManager.tree.Repr
      ensures Valid() && HandlersAgree() && Run(old(Abs()), Together(parts), Abs())
      ensures fresh(subscriptions.Repr - old(subscriptions.Repr)) && fresh(treeManager.tree.Repr - old(treeManager.tree.Repr))
      ensures AllHandled(parts, client.id, packets, old(treeManager.tree.Value), answers)
      ensures tableTasks == old(tableTasks) + AllTasks(packets)
      ensures treeManager.tasks == old(treeManager.tasks) + RetainedRows(Together(parts))
      ensures RetainedForWorker(RetainedRows(Together(parts)))
    {
      hide RecursiveDefaultDict.Valid, RecursiveDefaultDict.Linked, TreeManager.Valid, Valid, Run, HandlersAgree, Abs, Acceptable,
        RetainedForWorker, RetainedRows, HandledAs, AllHandled, PacketTasks, TreeAfter, Together, AllTasks;
      parts := [];
      ghost var start := Abs();
      AbsTree();
      RunNothing(start);
      NothingTogether();
      NothingHandled(client.id, start.tree, answers);
      assert treeManager.tasks + [] == treeManager.tasks && tableTasks + [] == tableTasks;
      for i := 0 to |packets|
        invariant Valid() && HandlersAgree() && Run(old(Abs()), Together(parts), Abs())
        invariant fresh(subscriptions.Repr - old(subscriptions.Repr)) && fresh(treeManager.tree.Repr - old(treeManager.tree.Repr))
        invariant AllHandled(parts, client.id, packets[..i], old(treeManager.tree.Value), answers)
        invariant tableTasks == old(tableTasks) + AllTasks(packets[..i])
        invariant treeManager.tasks == old(treeManager.tasks) + RetainedRows(Together(parts))
      {
        ghost var before := Abs();
        AbsTree();
        TreeSoFar(start, parts, before);
        assert packets[i] in packets;
        ghost var more := HandlePacket(client, packets[i], answers);
        RunJoin(old(Abs()), Together(parts), before, more, Abs());
        RetainedJoin(Together(parts), more);
        assert packets[..i + 1] == packets[..i] + [packets[i]];
        OneMorePart(start.tree, parts, more, client.id, packets[..i], packets[i], answers);
        OneMoreTask(packets, i);
        parts := parts + [more];
      }
      assert packets[..|packets|] == packets;
      GivenToWorker(Together(parts));
    }
  }

  /** What the first i of these runs have retained on a tree. */
  function TreeAfter(t: Trie<Payload>, parts: seq<seq<Step>>, i: nat): Trie<Payload>
    requires i <= |parts|
  {
    RetainAll(t, RetainedRows(Together(parts[..i])))
  }

  lemma TreeSoFar(start: State, parts: seq<seq<Step>>, s: State)
    requires Run(start, Together(parts), s)
    ensures s.tree == TreeAfter(start.tree, parts, |parts|)
  {
    hide Run, RetainedRows, Together;
    TreeOfRun(start, Together(parts), s);
    assert parts[..|parts|] == parts;
  }

  lemma NothingTogether()
    ensures Together([]) == [] && RetainedRows([]) == [] && AllTasks([]) == []
  {
  }

  /** Each packet is handled on the tree the packets before it left. */
  ghost predicate AllHandled(parts: seq<seq<Step>>, client: string, packets: seq<ClientPacket>, t: Trie<Payload>, answers: string -> bytes)
  {
    |parts| == |packets| && forall i :: 0 <= i < |packets| ==> HandledAs(parts[i], client, packets[i], TreeAfter(t, parts, i), answers)
  }

  lemma NothingHandled(client: string, t: Trie<Payload>, answers: string -> bytes)
    ensures AllHandled([], client, [], t, answers)
  {
  }

  lemma OneMorePart(t: Trie<Payload>, parts: seq<seq<Step>>, more: seq<Step>, client: string, packets: seq<ClientPacket>,
                    packet: ClientPacket, answers: string -> bytes)
    requires AllHandled(parts, client, packets, t, answers)
    requires HandledAs(more, client, packet, TreeAfter(t, parts, |parts|), answers)
    ensures Together(parts + [more]) == Together(parts) + more
    ensures AllHandled(parts + [more], client, packets + [packet], t, answers)
  {
    hide TreeAfter, Together, HandledAs;
    TogetherMore(parts, more);
    forall j | 0 <= j < |packets| + 1
      ensures HandledAs((parts + [more])[j], client, (packets + [packet])[j], TreeAfter(t, parts + [more], j), answers)
    {
      TreeBefore(t, parts, more, j);
      if j < |packets| {
        assert (parts + [more])[j] == parts[j] && (packets + [packet])[j] == packets[j];
      }
    }
  }

  lemma TogetherMore(parts: seq<seq<Step>>, more: seq<Step>)
    ensures Together(parts + [more]) == Together(parts) + more
  {
    assert (parts + [more])[..|parts|] == parts;
  }

  lemma TreeBefore(t: Trie<Payload>, parts: seq<seq<Step>>, more: seq<Step>, j: nat)
    requires j <= |parts|
    ensures TreeAfter(t, parts + [more], j) == TreeAfter(t, parts, j)
  {
    hide RetainAll, RetainedRows, Together;
    assert (parts + [more])[..j] == parts[..j];
  }

  lemma OneMoreTask(packets: seq<ClientPacket>, i: nat)
    requires i < |packets|
    ensures AllTasks(packets[..i + 1]) == AllTasks(packets[..i]) + PacketTasks(packets[i])
  {
    hide PacketTasks;
    assert packets[..i + 1][..i] == packets[..i];
  }

  /** The packets a client sends that reach the broker. */
  datatype ClientPacket =
    | SubscribePacket(requests: seq<(string, nat)>)
    | UnsubscribePacket(id: nat, topics: seq<string>)
    | PublishPacket(message: IncomingMessage)

  ghost predicate Acceptable(packet: ClientPacket) {
    packet.PublishPacket? ==> IsTopic(packet.message.topic) && ItemNodesOk(GraftData(packet.message.tree))
  }

  /** The arguments a starred set becomes. */
  method InAnyOrder(items: set<string>) returns (order: seq<string>)
    ensures forall item :: item in order <==> item in items
  {
    order := [];
    var todo := items;
    while todo != {}
      invariant todo <= items
      invariant forall item :: item in order <==> item in items && item !in todo
      decreases todo
    {
      var item :| item in todo;
      order, todo := order + [item], todo - {item};
    }
  }

  /** The step a request takes, with what is sent for it. */
  function RequestStep(client: string, topic: Path, qos: nat, tree: bool, sent: Item): Step
    requires topic != []
  {
    if tree then SyncSubscribe(client, topic, qos, sent)
    else if ForTable(topic) then TableSubscribe(client, topic, qos, sent)
    else Step.Subscribe(client, topic, qos)
  }

  /** A step is one that the request of a SUBSCRIBE packet asks for; answers are the table manager's. */
  predicate Requested(step: Step, client: string, request: (string, nat), answers: string -> bytes) {
    request.0 != "" &&
    if request.0[0] == SEPARATOR then
      step.SyncSubscribe? && step == SyncSubscribe(client, Split(request.0[1..]), request.1, step.snapshot)
    else step == RequestStep(client, Split(request.0), request.1, false, Text(answers(request.0)))
  }

  lemma RequestedStep(client: string, request: (string, nat), answers: string -> bytes, sent: Item)
    requires request.0 != "" && (request.0[0] != SEPARATOR ==> sent == Text(answers(request.0)))
    ensures Requested(RequestStep(client, Split(Unprefixed(request.0)), request.1, request.0[0] == SEPARATOR, sent), client, request,
                      answers)
  {
  }

  /** A request without a topic, or for a snapshot that cannot be made, ends the handler of its packet. */
  ghost predicate Refused(t: Trie<Payload>, request: (string, nat)) {
    request.0 == "" || (request.0[0] == SEPARATOR && Raises(t, Split(request.0[1..])))
  }

  /** The first n requests are those before the first one refused. */
  ghost predicate TakenUpTo(t: Trie<Payload>, requests: seq<(string, nat)>, n: nat) {
    && n <= |requests| && (forall i :: 0 <= i < n ==> !Refused(t, requests[i]))
    && (n < |requests| ==> Refused(t, requests[n]))
  }

  lemma RequestKeepsTree(s: State, client: string, topic: Path, qos: nat, tree: bool, sent: Item)
    requires topic != []
    ensures Next(s, RequestStep(client, topic, qos, tree, sent)).tree == s.tree
  {
    hide Next;
    NextTransient(s, RequestStep(client, topic, qos, tree, sent));
  }

  /** The topics a SUBSCRIBE packet adds to its handler's set. */
  function SubscribedTopics(requests: seq<(string, nat)>): set<string> {
    set request | request in requests && request.0 != "" :: Unprefixed(request.0)
  }

  lemma NoRequests(t: Trie<Clients>, client: string)
    ensures SubscribedTopics([]) == {} && SubscribedAll(t, [], client) == t
  {
  }

  lemma OneMoreRequest(t: Trie<Clients>, requests: seq<(string, nat)>, i: nat, client: string)
    requires i < |requests| && requests[i].0 != "" && forall q :: q in requests[..i] ==> q.0 != ""
    ensures forall q :: q in requests[..i + 1] ==> q.0 != ""
    ensures SubscribedTopics(requests[..i + 1]) == SubscribedTopics(requests[..i]) + {Unprefixed(requests[i].0)}
    ensures SubscribedAll(t, requests[..i + 1], client) ==
            Subscribed(SubscribedAll(t, requests[..i], client), Split(Unprefixed(requests[i].0)), client, requests[i].1)
  {
    assert requests[..i + 1] == requests[..i] + [requests[i]] && requests[..i + 1][..i] == requests[..i];
  }

  function UnsubscribeSteps(client: string, topics: seq<string>): seq<Step> {
    seq(|topics|, i requires 0 <= i < |topics| => Step.Unsubscribe(client, Split(topics[i])))
  }

  function PublishSteps(message: IncomingMessage, rows: seq<Row>): seq<Step>
    requires message.topic != []
  {
    if ForTable(message.topic) then [] else [if message.retain then Step.Publish(rows) else Broadcast(rows)]
  }

  /**
   The steps of a message that is published: none when it is refused or is for a table, else one, with the rows a retained
   message makes of the tree, or the single row of any other.
   */
  ghost predicate PublishesAs(steps: seq<Step>, message: IncomingMessage, t: Trie<Payload>) {
    if message.topic == [] || message.topic[0] == "" || ForTable(message.topic) || !Accepts(message, t) then steps == []
    else if message.retain then |steps| == 1 && steps[0].Publish? && RowsOf(steps[0].rows, t, message)
    else steps == [Broadcast([Row(message.topic, message.data, message.qos)])]
  }

  /** The tasks the table manager is given for a message. */
  function TasksOf(message: IncomingMessage): seq<TableTask> {
    if message.topic != [] && ForTable(message.topic) then [TableTask(message.topic, message.data, message.qos)] else []
  }

  function PacketTasks(packet: ClientPacket): seq<TableTask> {
    if packet.PublishPacket? then TasksOf(packet.message) else []
  }

  function AllTasks(packets: seq<ClientPacket>): seq<TableTask> {
    if packets == [] then [] else AllTasks(packets[..|packets| - 1]) + PacketTasks(packets[|packets| - 1])
  }

  /** The steps of a client's packet. */
  ghost predicate HandledAs(steps: seq<Step>, client: string, packet: ClientPacket, t: Trie<Payload>, answers: string -> bytes) {
    match packet
    case SubscribePacket(requests) =>
      TakenUpTo(t, requests, |steps|) && forall i :: 0 <= i < |steps| ==> Requested(steps[i], client, requests[i], answers)
    case UnsubscribePacket(id, topics) => steps == UnsubscribeSteps(client, topics)
    case PublishPacket(message) => PublishesAs(steps, message, t)
  }

  function Together(parts: seq<seq<Step>>): seq<Step> {
    if parts == [] then [] else Together(parts[..|parts| - 1]) + parts[|parts| - 1]
  }

  /** Which requests are refused: one without a topic, and one for a snapshot past a "#" that the tree leads to. */
  lemma RefusedExact(t: Trie<Payload>, topic: string, qos: nat)
    ensures Refused(t, (topic, qos)) <==>
            topic == "" || (topic[0] == '/' && exists n: nat, p: Path :: Misplaced(t, Split(topic[1..]), n, p))
  {
    hide Raises, Misplaced, Split;
    if topic != "" {
      RaisesWhen(t, Split(topic[1..]));
      assert Refused(t, (topic, qos)) <==> topic[0] == '/' && Raises(t, Split(topic[1..]));
    }
  }

  /**
   Which messages are accepted: of the retained ones a graft whose data has the shape its topic asks for, and any other
   whose topic has no "#" before its end that the tree leads to; of those not retained the ones without wildcards.
   */
  lemma AcceptsExact(message: IncomingMessage, t: Trie<Payload>)
    requires message.topic != [] && WellFormed(t)
    ensures message.retain && message.graft ==>
              (Accepts(message, t) <==> forall wild: Path :: Flattening.ShapeAt(message.topic, GraftData(message.tree), wild))
    ensures message.retain && !message.graft ==> (Accepts(message, t) <==> !exists n: nat, p: Path :: Misplaced(t, message.topic, n, p))
    ensures !message.retain ==> (Accepts(message, t) <==> forall node :: node in message.topic ==> node != "+" && node != "#")
  {
    hide Flattening.Fits, Flattening.ShapeAt, ApplicableRows.Expand, Misplaced, GraftData;
    Flattening.FitsExact(message.topic, GraftData(message.tree));
    Expansion.ExpandFails(t, message.topic, false);
  }

  /** What publishing a message does: an accepted one that is for no table queues one batch, and is retained if it asks for it. */
  lemma PublishEffect(s: State, steps: seq<Step>, next: State, message: IncomingMessage)
    requires IsTopic(message.topic) && PublishesAs(steps, message, s.tree) && Run(s, steps, next)
    ensures if message.topic[0] == "" || message.topic[0][0] == '@' || !Accepts(message, s.tree) then next == s
            else
              && |next.queue| == |s.queue| + 1 && next.queue[..|s.queue|] == s.queue && next.inboxes == s.inboxes
              && var rows := next.queue[|s.queue|];
                 if message.retain then RowsOf(rows, s.tree, message) && next.tree == RetainAll(s.tree, rows)
                 else rows == [Row(message.topic, message.data, message.qos)] && next.tree == s.tree
  {
    hide Accepts, RowsOf, RetainAll, Run;
    if steps == [] {
      RunEmpty(s, next);
    } else {
      assert steps == [steps[0]];
      RunSingle(s, steps[0], next);
      NextPublish(s, if steps[0].Publish? || steps[0].Broadcast? then steps[0].rows else []);
    }
  }

  lemma RunEmpty(s: State, next: State)
    requires Run(s, [], next)
    ensures next == s
  {
  }

  lemma RunSingle(s: State, step: Step, next: State)
    requires Run(s, [step], next)
    ensures Enabled(s, step) && next == Next(s, step)
  {
    hide Enabled, Next;
    assert [step][..0] == [];
  }

  lemma RequestedSubscribes(s: State, step: Step, client: string, request: (string, nat), answers: string -> bytes)
    requires Requested(step, client, request, answers)
    ensures request.0 != ""
    ensures Next(s, step).subscriptions == Subscribed(s.subscriptions, Split(Unprefixed(request.0)), client, request.1)
  {
    hide Subscribed, Split;
  }

  lemma {:induction false} SubscriptionsOfRun(s: State, steps: seq<Step>, next: State, client: string, requests: seq<(string, nat)>,
                                              answers: string -> bytes)
    requires Run(s, steps, next) && |steps| <= |requests|
    requires forall i :: 0 <= i < |steps| ==> Requested(steps[i], client, requests[i], answers)
    ensures forall q :: q in requests[..|steps|] ==> q.0 != ""
    ensures next.subscriptions == SubscribedAll(s.subscriptions, requests[..|steps|], client)
    decreases |steps|
  {
    hide Enabled, Next, Requested, Subscribed, SubscribedAll, Unprefixed, Split;
    NoRequests(s.subscriptions, client);
    if steps == [] {
      assert requests[..0] == [];
    } else {
      var n := |steps| - 1;
      var before :| Run(s, steps[..n], before) && Enabled(before, steps[n]) && next == Next(before, steps[n]);
      SubscriptionsOfRun(s, steps[..n], before, client, requests, answers);
      RequestedSubscribes(before, steps[n], client, requests[n], answers);
      OneMoreRequest(s.subscriptions, requests, n, client);
    }
  }

  /** What a SUBSCRIBE does: of the requests before the first one refused, the last for each topic sets its qos. */
  lemma SubscribeEffect(s: State, steps: seq<Step>, next: State, client: string, requests: seq<(string, nat)>,
                        answers: string -> bytes, n: nat, i: nat)
    requires HandledAs(steps, client, SubscribePacket(requests), s.tree, answers) && Run(s, steps, next) && Tidy(s.subscriptions)
    requires TakenUpTo(s.tree, requests, n) && i < n
    requires forall j :: 0 <= j < n ==> requests[j].0 != ""
    requires forall j :: i < j < n ==> Unprefixed(requests[j].0) != Unprefixed(requests[i].0)
    ensures QosOf(next.subscriptions, Split(Unprefixed(requests[i].0)), client) == Some(requests[i].1)
  {
    hide Run, Requested, Refused, Tidy, QosOf, Split, Unprefixed, SubscribedAll;
    assert |steps| == n;
    SubscriptionsOfRun(s, steps, next, client, requests, answers);
    SubscribeAllLast(s.subscriptions, requests[..n], client, i);
  }

  /** What an UNSUBSCRIBE does: the client's entries at its topics are gone, and every other entry is as it was. */
  lemma UnsubscribeEffect(s: State, steps: seq<Step>, next: State, client: string, id: nat, topics: seq<string>,
                          answers: string -> bytes, topic: string, c: string)
    requires HandledAs(steps, client, UnsubscribePacket(id, topics), s.tree, answers) && Run(s, steps, next) && Tidy(s.subscriptions)
    ensures QosOf(next.subscriptions, Split(topic), c) ==
            if c == client && topic in topics then None else QosOf(s.subscriptions, Split(topic), c)
  {
    hide Run, QosOf, Split, UnsubscribedAll;
    UnsubscriptionsOfRun(s, next, client, topics);
    UnsubscribeAllRemoves(s.subscriptions, topics, client, topic, c);
  }

  lemma {:induction false} UnsubscriptionsOfRun(s: State, next: State, client: string, topics: seq<string>)
    requires Run(s, UnsubscribeSteps(client, topics), next)
    ensures next.subscriptions == UnsubscribedAll(s.subscriptions, topics, client)
    decreases |topics|
  {
    hide Enabled, Next, Unsubscribed, Split;
    var steps := UnsubscribeSteps(client, topics);
    if topics == [] {
      assert steps == [];
    } else {
      var n := |topics| - 1;
      assert steps[n] == Step.Unsubscribe(client, Split(topics[n])) && steps[..n] == UnsubscribeSteps(client, topics[..n]);
      var before :| Run(s, steps[..n], before) && Enabled(before, steps[n]) && next == Next(before, steps[n]);
      UnsubscriptionsOfRun(s, before, client, topics[..n]);
      NextUnsubscribe(before, client, Split(topics[n]));
    }
  }

  lemma SameTree(s: State, steps: seq<Step>, next: State)
    requires Run(s, steps, next) && RetainedRows(steps) == []
    ensures next.tree == s.tree
  {
    TreeOfRun(s, steps, next);
  }

  lemma PublishRun(s: State, message: IncomingMessage, rows: seq<Row>)
    requires message.topic != [] && !ForTable(message.topic) && TopicsOk(rows)
    ensures Run(s, PublishSteps(message, rows), Next(s, if message.retain then Step.Publish(rows) else Broadcast(rows)))
  {
    RunOne(s, if message.retain then Step.Publish(rows) else Broadcast(rows));
  }

  /** Whether a retained message makes rows of a tree. */
  ghost predicate Accepted(message: IncomingMessage, t: Trie<Payload>)
    requires message.topic != []
  {
    if message.graft then Flattening.Fits(message.topic, GraftData(message.tree)) else PlainRows(t, message).Ok?
  }

  ghost predicate Accepts(message: IncomingMessage, t: Trie<Payload>)
    requires message.topic != []
  {
    if message.retain then Accepted(message, t) else IsStatic(message.topic)
  }

  function LeaveSteps(client: string, topics: seq<string>): seq<Step> {
    UnsubscribeSteps(client, topics) + if client == "" then [] else [Remove(client)]
  }

  lemma {:induction false} NothingRetainedBy(steps: seq<Step>)
    requires forall step :: step in steps ==> !step.Publish?
    ensures RetainedRows(steps) == []
    decreases |steps|
  {
    if steps != [] {
      assert steps[|steps| - 1] in steps;
      NothingRetainedBy(steps[..|steps| - 1]);
    }
  }

  lemma LeavingRetains(client: string, topics: seq<string>)
    ensures RetainedRows(LeaveSteps(client, topics)) == []
  {
    NothingRetainedBy(LeaveSteps(client, topics));
  }

  lemma UnsubscribingRetains(client: string, topics: seq<string>)
    ensures RetainedRows(UnsubscribeSteps(client, topics)) == []
  {
    NothingRetainedBy(UnsubscribeSteps(client, topics));
  }

  lemma SubscribingRetains(steps: seq<Step>, client: string, requests: seq<(string, nat)>, answers: string -> bytes)
    requires |steps| <= |requests| && forall i :: 0 <= i < |steps| ==> Requested(steps[i], client, requests[i], answers)
    ensures RetainedRows(steps) == []
  {
    hide Requested, RetainedRows;
    forall step | step in steps
      ensures !step.Publish?
    {
      var i :| 0 <= i < |steps| && steps[i] == step;
      RequestedKind(step, client, requests[i], answers);
    }
    NothingRetainedBy(steps);
  }

  lemma RequestedKind(step: Step, client: string, request: (string, nat), answers: string -> bytes)
    requires Requested(step, client, request, answers)
    ensures !step.Publish?
  {
    hide Split, ForTable;
  }

  lemma PublishRetains(message: IncomingMessage, rows: seq<Row>)
    requires message.topic != [] && (ForTable(message.topic) ==> rows == [])
    ensures RetainedRows(PublishSteps(message, rows)) == if message.retain then rows else []
  {
    var steps := PublishSteps(message, rows);
    if steps != [] {
      assert steps[..0] == [] && RetainedRows(steps[..0]) + rows == rows;
    }
  }

  lemma RemoveEnabled(s: State, client: string)
    ensures Enabled(s, Remove(client)) && Enabled(s, Connect(client))
  {
  }

  lemma {:induction false} FirstNode(topic: string)
    requires topic != "" && topic[0] != SEPARATOR
    ensures Split(topic)[0] != ""
  {
  }

  lemma DeliveredShare(messages: seq<Message>, client: string)
    requires messages != []
    ensures Delivered(messages, client) ==
            Delivered(messages[..|messages| - 1], client) + Share(messages[|messages| - 1], client, {})
  {
  }

  lemma NoMessages(t: Trie<Clients>)
    ensures AllPairs([], t, []) && forall client :: Delivered([], client) == []
  {
  }

  method AsSingleRow(message: IncomingMessage) returns (r: Result<seq<Row>>)
    ensures r.Ok? <==> IsStatic(message.topic)
    ensures r.Ok? ==> r.value == [Row(message.topic, message.data, message.qos)]
  {
    for i := 0 to |message.topic|
      invariant forall j :: 0 <= j < i ==> IsNodeStatic(message.topic[j])
    {
      if !IsNodeStatic(message.topic[i]) {
        assert message.topic[i] in message.topic;
        return Err(DynamicMessage);
      }
    }
    r := Ok([Row(message.topic, message.data, message.qos)]);
  }
}

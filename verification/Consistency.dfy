/**
 The broker as a state machine over its steps, each taken as atomic, and quiescent consistency: what a
 synchronised subscriber holds, with the batches still queued, is what the retained tree shows.
 */
module Consistency {
  import opened Wrappers
  import opened Bytes
  import opened Topics
  import opened Tries
  import opened Rows
  import opened Items
  import opened Filters
  import opened Multiplexer
  import opened Subscriptions
  import opened Snapshots
  import opened TreeManagers

  type Inbox = seq<OutgoingMessage>

  /**
   A sync subscribe to a "#"-free filter: where in the client's inbox its snapshot stands, the tree it was taken from, and
   the rows queued then or published since, retained or not.
   */
  datatype Sync = Sync(at: nat, base: Trie<Payload>, rows: seq<Row>)

  /** transient: the topics whose latest publish was broadcast and not retained. */
  datatype State = State(tree: Trie<Payload>, subscriptions: Trie<Clients>, queue: seq<seq<Row>>,
                         inboxes: map<string, Inbox>, since: map<(string, Path), Sync>, transient: set<Path>)

  datatype Step =
    | Connect(client: string)
    | Remove(client: string)
    | Subscribe(client: string, filter: Path, qos: nat)
    | SyncSubscribe(client: string, filter: Path, qos: nat, snapshot: Item)
    | TableSubscribe(client: string, filter: Path, qos: nat, data: Item)
    | Unsubscribe(client: string, filter: Path)
    | Publish(rows: seq<Row>)
    | Broadcast(rows: seq<Row>)
    | Dispatch(messages: seq<Message>)

  /** process_outgoing_rows, for one client: its share of the messages, in order. */
  function Delivered(messages: seq<Message>, client: string): Inbox {
    if messages == [] then []
    else
      var last := messages[|messages| - 1];
      Delivered(messages[..|messages| - 1], client) +
      if client in last.clients then [OutgoingMessage(JoinOf(last.filter), last.clients[client], last.data)] else []
  }

  ghost predicate Enabled(s: State, step: Step) {
    match step
    case Connect(client) => true
    case Remove(client) => true
    case Subscribe(client, filter, qos) => IsTopic(filter)
    case SyncSubscribe(client, filter, qos, snapshot) =>
      client in s.inboxes && IsTopic(filter) && Filtered(s.tree, filter, Ok(snapshot))
    case TableSubscribe(client, filter, qos, data) => client in s.inboxes && IsTopic(filter)
    case Unsubscribe(client, filter) => IsTopic(filter)
    case Publish(rows) => TopicsOk(rows)
    case Broadcast(rows) => TopicsOk(rows)
    case Dispatch(messages) => s.queue != [] && AllPairs(messages, s.subscriptions, s.queue[0])
  }

  function Next(s: State, step: Step): State {
    match step
    case Connect(client) => Without(s, client).(inboxes := s.inboxes[client := []])
    case Remove(client) => Without(s, client)
    case Subscribe(client, filter, qos) =>
      s.(subscriptions := Subscribed(s.subscriptions, filter, client, qos))
    case SyncSubscribe(client, filter, qos, snapshot) =>
      WithSnapshot(s, client, filter, OutgoingMessage(JoinOf(filter), qos, snapshot)).(
        subscriptions := Subscribed(s.subscriptions, filter, client, qos))
    case TableSubscribe(client, filter, qos, data) =>
      WithMessage(s, client, filter, OutgoingMessage(JoinOf(filter), qos, data)).(
        subscriptions := Subscribed(s.subscriptions, filter, client, qos))
    case Unsubscribe(client, filter) =>
      s.(subscriptions := Unsubscribed(s.subscriptions, filter, client), since := s.since - {(client, filter)})
    case Publish(rows) =>
      s.(tree := RetainAll(s.tree, rows), queue := s.queue + [rows], since := Seeing(s.since, rows),
         transient := s.transient - TopicsOf(rows))
    case Broadcast(rows) =>
      s.(queue := s.queue + [rows], since := Seeing(s.since, rows), transient := s.transient + TopicsOf(rows))
    case Dispatch(messages) =>
      s.(queue := if s.queue == [] then [] else s.queue[1..],
         inboxes := map c | c in s.inboxes :: s.inboxes[c] + Delivered(messages, c))
  }

  /** The state without a client's inbox; its entries in the trie are the handler's business. */
  function Without(s: State, client: string): State {
    s.(inboxes := s.inboxes - {client}, since := map k | k in s.since && k.0 != client :: s.since[k])
  }

  /** The snapshot joins the client's inbox; its place is noted when deltas can follow it. */
  function WithSnapshot(s: State, client: string, filter: Path, message: OutgoingMessage): State {
    var inbox := if client in s.inboxes then s.inboxes[client] else [];
    s.(inboxes := s.inboxes[client := inbox + [message]],
       since := if EVERYTHING_CARD in filter then s.since
                else s.since[(client, filter) := Sync(|inbox|, s.tree, Flat(s.queue))])
  }

  /** A message about a table, on the topic of the filter, which speaks of the tree no more. */
  function WithMessage(s: State, client: string, filter: Path, message: OutgoingMessage): State {
    var inbox := if client in s.inboxes then s.inboxes[client] else [];
    s.(inboxes := s.inboxes[client := inbox + [message]], since := s.since - {(client, filter)})
  }

  /** Every sync subscriber is shown the rows of each publish. */
  function Seeing(since: map<(string, Path), Sync>, rows: seq<Row>): map<(string, Path), Sync> {
    map k | k in since :: since[k].(rows := since[k].rows + rows)
  }

  /** One step at a time, for the methods that take them. */
  lemma NextDispatch(s: State, messages: seq<Message>)
    requires s.queue != []
    ensures Next(s, Dispatch(messages)) ==
            State(s.tree, s.subscriptions, s.queue[1..], map c | c in s.inboxes :: s.inboxes[c] + Delivered(messages, c), s.since,
                  s.transient)
  {
  }

  lemma NextPublish(s: State, rows: seq<Row>)
    ensures Next(s, Publish(rows)) ==
            State(RetainAll(s.tree, rows), s.subscriptions, s.queue + [rows], s.inboxes, Seeing(s.since, rows),
                  s.transient - TopicsOf(rows))
    ensures Next(s, Broadcast(rows)) ==
            State(s.tree, s.subscriptions, s.queue + [rows], s.inboxes, Seeing(s.since, rows), s.transient + TopicsOf(rows))
  {
  }

  lemma NextSubscribe(s: State, client: string, filter: Path, qos: nat)
    ensures Next(s, Subscribe(client, filter, qos)).subscriptions == Subscribed(s.subscriptions, filter, client, qos)
    ensures IsTopic(filter) ==> Enabled(s, Subscribe(client, filter, qos))
  {
  }

  lemma NextUnsubscribe(s: State, client: string, filter: Path)
    ensures Next(s, Unsubscribe(client, filter)) ==
            State(s.tree, Unsubscribed(s.subscriptions, filter, client), s.queue, s.inboxes, s.since - {(client, filter)}, s.transient)
    ensures IsTopic(filter) ==> Enabled(s, Unsubscribe(client, filter))
  {
  }

  lemma SnapshotThenSubscribe(s: State, client: string, filter: Path, qos: nat, message: OutgoingMessage)
    requires IsTopic(filter)
    ensures WithSnapshot(s, client, filter, message).subscriptions == s.subscriptions
    ensures message == OutgoingMessage(Join(filter), qos, message.data) ==>
      Next(WithSnapshot(s, client, filter, message), Subscribe(client, filter, qos)) ==
      Next(s, SyncSubscribe(client, filter, qos, message.data))
    ensures client in s.inboxes && Filtered(s.tree, filter, Ok(message.data)) ==>
      Enabled(s, SyncSubscribe(client, filter, qos, message.data))
  {
  }

  lemma MessageThenSubscribe(s: State, client: string, filter: Path, qos: nat, data: Item)
    requires IsTopic(filter)
    ensures WithMessage(s, client, filter, OutgoingMessage(Join(filter), qos, data)).subscriptions == s.subscriptions
    ensures Next(WithMessage(s, client, filter, OutgoingMessage(Join(filter), qos, data)), Subscribe(client, filter, qos)) ==
            Next(s, TableSubscribe(client, filter, qos, data))
    ensures client in s.inboxes ==> Enabled(s, TableSubscribe(client, filter, qos, data))
  {
  }

  function JoinOf(filter: Path): string {
    if filter == [] then "" else Join(filter)
  }

  /** What a client makes of the messages on one filter: each overlaid on what it held. */
  function View(inbox: Inbox, filter: Path): Item {
    if inbox == [] then Blank
    else
      var last := inbox[|inbox| - 1];
      var held := View(inbox[..|inbox| - 1], filter);
      if last.topic == JoinOf(filter) then Overlay(held, last.data) else held
  }

  // ---------------------------------------------------------------- the invariant

  /** At the topics that are not transient: every pending row is retained, and no later one has changed its leaf. */
  ghost predicate PendingRetained(s: State) {
    forall topic: Path :: topic !in s.transient && LastFor(Flat(s.queue), topic).Some? ==>
      SlotAt(s.tree, topic) == LastFor(Flat(s.queue), topic)
  }

  /** What a subscriber is shown at a topic: the last row it has seen, else what its snapshot was taken from. */
  function Seen(sync: Sync, topic: Path): Option<Payload> {
    if LastFor(sync.rows, topic).Some? then LastFor(sync.rows, topic) else SlotAt(sync.base, topic)
  }

  /** The client's view, with the deltas still to come, is the tree of its snapshot and of the rows seen since. */
  ghost predicate Synchronised(s: State, client: string, filter: Path) {
    && client in s.inboxes && (client, filter) in s.since && s.since[(client, filter)].at <= |s.inboxes[client]|
    && IsTopic(filter) && EVERYTHING_CARD !in filter
    && QosOf(s.subscriptions, filter, client).Some?
    && var sync := s.since[(client, filter)];
       Agrees(Replay(View(s.inboxes[client][sync.at..], filter), filter, s.queue), RetainAll(sync.base, sync.rows), filter)
  }

  /** Topics that are not transient are seen as they are in the tree. */
  ghost predicate SeenRetained(s: State) {
    forall k, topic: Path :: k in s.since && topic !in s.transient ==> Seen(s.since[k], topic) == SlotAt(s.tree, topic)
  }

  ghost predicate Invariant(s: State) {
    && PendingRetained(s) && SeenRetained(s)
    && Tidy(s.subscriptions)
    && forall client, filter :: (client, filter) in s.since ==> Synchronised(s, client, filter)
  }

  lemma {:induction false} ViewConcat(a: Inbox, b: Inbox, filter: Path)
    requires forall m :: m in b ==> m.topic != JoinOf(filter)
    ensures View(a + b, filter) == View(a, filter)
  {
    if b == [] {
      assert a + b == a;
    } else {
      var init := b[..|b| - 1];
      assert (a + b)[..|a + b| - 1] == a + init && b[|b| - 1] in b;
      assert forall m :: m in init ==> m in b;
      ViewConcat(a, init, filter);
    }
  }

  ghost predicate AllRight(messages: seq<Message>, t: Trie<Clients>, rows: seq<Row>) {
    forall i :: 0 <= i < |messages| ==>
      && SlotAt(t, messages[i].filter) == Some(messages[i].clients)
      && Matching(rows, messages[i].filter) != [] && messages[i].data == MessageFor(rows, messages[i].filter)
  }

  /** One more message changes the view of its own filter only. */
  lemma DeliveredOne(inbox: Inbox, m: Message, t: Trie<Clients>, client: string, filter: Path)
    requires Tidy(t) && IsTopic(filter) && QosOf(t, filter, client).Some? && SlotAt(t, m.filter) == Some(m.clients)
    ensures View(inbox + Delivered([m], client), filter) ==
            if m.filter == filter then Overlay(View(inbox, filter), m.data) else View(inbox, filter)
  {
    assert [m][..0] == [] && Delivered([m][..0], client) == [];
    var all := inbox + Delivered([m], client);
    if client in m.clients {
      assert all[..|all| - 1] == inbox;
      if m.filter != filter && Join(m.filter) == Join(filter) {
        JoinInjective(m.filter, filter);
      }
    } else {
      assert all == inbox;
    }
  }

  lemma RightInit(messages: seq<Message>, t: Trie<Clients>, rows: seq<Row>)
    requires messages != [] && Unrepeated(messages) && AllRight(messages, t, rows)
    ensures var init, last := messages[..|messages| - 1], messages[|messages| - 1];
            && Unrepeated(init) && AllRight(init, t, rows) && SlotAt(t, last.filter) == Some(last.clients)
            && Matching(rows, last.filter) != [] && last.data == MessageFor(rows, last.filter)
  {
    hide Matching, MessageFor, SlotAt;
  }

  lemma DeliveredLast(messages: seq<Message>, client: string)
    requires messages != []
    ensures var init, last := messages[..|messages| - 1], messages[|messages| - 1];
            Delivered(messages, client) == Delivered(init, client) + Delivered([last], client)
  {
    var last := messages[|messages| - 1];
    assert [last][..0] == [] && Delivered([], client) == [];
  }

  /** Dispatching a batch advances the view of each subscribed filter by that batch's message, exactly once. */
  lemma {:induction false} DeliveredView(inbox: Inbox, messages: seq<Message>, t: Trie<Clients>, rows: seq<Row>, client: string,
                                         filter: Path)
    requires Tidy(t) && IsTopic(filter) && QosOf(t, filter, client).Some? && Unrepeated(messages)
    requires AllRight(messages, t, rows)
    ensures Covered(messages, filter) ==> Matching(rows, filter) != []
    ensures View(inbox + Delivered(messages, client), filter) ==
            if Covered(messages, filter) then Overlay(View(inbox, filter), MessageFor(rows, filter)) else View(inbox, filter)
    decreases |messages|
  {
    if messages == [] {
      hide AllRight, Unrepeated, QosOf, Tidy;
      assert inbox + [] == inbox;
    } else {
      hide Tidy, QosOf, Matching, MessageFor, View, Overlay, Delivered, Covered, AllRight, Unrepeated;
      RightInit(messages, t, rows);
      var init, last := messages[..|messages| - 1], messages[|messages| - 1];
      DeliveredView(inbox, init, t, rows, client, filter);
      DeliveredOne(inbox + Delivered(init, client), last, t, client, filter);
      DeliveredLast(messages, client);
      assert inbox + Delivered(messages, client) == inbox + Delivered(init, client) + Delivered([last], client);
      CoveredLast(messages, filter);
    }
  }

  lemma CoveredLast(messages: seq<Message>, filter: Path)
    requires messages != [] && Unrepeated(messages)
    ensures Covered(messages, filter) <==> Covered(messages[..|messages| - 1], filter) || messages[|messages| - 1].filter == filter
    ensures !(Covered(messages[..|messages| - 1], filter) && messages[|messages| - 1].filter == filter)
  {
    var init := messages[..|messages| - 1];
    if Covered(init, filter) {
      var i :| 0 <= i < |init| && init[i].filter == filter;
      assert messages[i].filter == filter;
    }
    if Covered(messages, filter) && messages[|messages| - 1].filter != filter {
      var i :| 0 <= i < |messages| && messages[i].filter == filter;
      assert init[i].filter == filter;
    }
  }

  /** A message to a client about a filter it is subscribed to, with its qos there and the data of the batch. */
  ghost predicate Sends(t: Trie<Clients>, rows: seq<Row>, client: string, filter: Path, m: OutgoingMessage) {
    && IsTopic(filter) && QosOf(t, filter, client) == Some(m.qos) && Matching(rows, filter) != []
    && m.topic == Join(filter) && m.data == MessageFor(rows, filter)
  }

  predicate SharedAt(messages: seq<Message>, client: string, m: OutgoingMessage, i: nat) {
    && i < |messages| && client in messages[i].clients
    && m == OutgoingMessage(JoinOf(messages[i].filter), messages[i].clients[client], messages[i].data)
  }

  lemma {:induction false} DeliveredIn(messages: seq<Message>, client: string, m: OutgoingMessage)
    ensures m in Delivered(messages, client) <==> exists i: nat :: SharedAt(messages, client, m, i)
    decreases |messages|
  {
    if messages != [] {
      var n := |messages| - 1;
      DeliveredIn(messages[..n], client, m);
      if i: nat :| SharedAt(messages, client, m, i) {
        assert i < n ==> SharedAt(messages[..n], client, m, i);
      }
      if i: nat :| SharedAt(messages[..n], client, m, i) {
        assert SharedAt(messages, client, m, i);
      }
      assert SharedAt(messages, client, m, n) <==>
             m in Delivered(messages, client)[|Delivered(messages[..n], client)|..];
    }
  }

  lemma {:induction false} DeliveredDistinct(messages: seq<Message>, client: string)
    requires Unrepeated(messages) && forall i :: 0 <= i < |messages| ==> IsTopic(messages[i].filter)
    ensures var sent := Delivered(messages, client); forall i, j :: 0 <= i < j < |sent| ==> sent[i].topic != sent[j].topic
    decreases |messages|
  {
    hide JoinOf, IsTopic;
    if messages != [] {
      var n := |messages| - 1;
      var init := Delivered(messages[..n], client);
      DeliveredDistinct(messages[..n], client);
      forall k | 0 <= k < |init|
        ensures init[k].topic != JoinOf(messages[n].filter)
      {
        DeliveredIn(messages[..n], client, init[k]);
        var i: nat :| SharedAt(messages[..n], client, init[k], i);
        OtherJoin(messages[i].filter, messages[n].filter);
      }
    }
  }

  lemma OtherJoin(a: Path, b: Path)
    requires IsTopic(a) && IsTopic(b) && a != b
    ensures JoinOf(a) != JoinOf(b)
  {
    if Join(a) == Join(b) {
      JoinInjective(a, b);
    }
  }

  /**
   What one dispatch queues a client: for each filter it is subscribed to that matches some row, one message under that
   filter, with the qos of that subscription and the data of the batch; and no other.
   */
  lemma DeliveredExact(messages: seq<Message>, t: Trie<Clients>, rows: seq<Row>, client: string)
    requires AllPairs(messages, t, rows) && Tidy(t)
    ensures var sent := Delivered(messages, client);
            && (forall m :: m in sent ==> exists filter :: Sends(t, rows, client, filter, m))
            && (forall filter: Path :: QosOf(t, filter, client).Some? && Matching(rows, filter) != [] ==>
                  exists m :: m in sent && Sends(t, rows, client, filter, m))
            && (forall i, j :: 0 <= i < j < |sent| ==> sent[i].topic != sent[j].topic)
  {
    hide Delivered, Matching, MessageFor, SlotAt;
    var sent := Delivered(messages, client);
    DeliveredDistinct(messages, client);
    forall m | m in sent
      ensures exists filter :: Sends(t, rows, client, filter, m)
    {
      DeliveredIn(messages, client, m);
      var i: nat :| SharedAt(messages, client, m, i);
      assert Sends(t, rows, client, messages[i].filter, m);
    }
    forall filter: Path | QosOf(t, filter, client).Some? && Matching(rows, filter) != []
      ensures exists m :: m in sent && Sends(t, rows, client, filter, m)
    {
      assert Covered(messages, filter);
      var i: nat :| i < |messages| && messages[i].filter == filter;
      var m := OutgoingMessage(JoinOf(filter), messages[i].clients[client], messages[i].data);
      assert SharedAt(messages, client, m, i);
      DeliveredIn(messages, client, m);
      assert Sends(t, rows, client, filter, m);
    }
  }

  // ---------------------------------------------------------------- every step keeps it

  /** Publishing, with or without retaining, is seen by every subscriber as a batch to come. */
  lemma ViewsAdvance(s: State, next: State, rows: seq<Row>)
    requires forall client, filter :: (client, filter) in s.since ==> Synchronised(s, client, filter)
    requires next.queue == s.queue + [rows] && next.inboxes == s.inboxes && next.subscriptions == s.subscriptions
    requires next.since == Seeing(s.since, rows)
    ensures forall client, filter :: (client, filter) in next.since ==> Synchronised(next, client, filter)
  {
    hide Agrees, Advanced;
    forall client, filter | (client, filter) in next.since
      ensures Synchronised(next, client, filter)
    {
      assert Synchronised(s, client, filter);
      var sync := s.since[(client, filter)];
      var view := View(s.inboxes[client][sync.at..], filter);
      ReplayAppend(view, filter, s.queue, rows);
      AdvanceAgrees(Replay(view, filter, s.queue), RetainAll(sync.base, sync.rows), filter, rows);
      RetainConcat(sync.base, sync.rows, rows);
    }
  }

  lemma PublishKeeps(s: State, rows: seq<Row>)
    requires Invariant(s) && TopicsOk(rows)
    ensures Invariant(Next(s, Publish(rows)))
  {
    hide Agrees, Tidy, Advanced, TopicsOf, Synchronised;
    var next := Next(s, Publish(rows));
    FlatAppend(s.queue, rows);
    ViewsAdvance(s, next, rows);
    forall topic: Path | topic !in next.transient
      ensures LastFor(Flat(next.queue), topic).Some? ==> SlotAt(next.tree, topic) == LastFor(Flat(next.queue), topic)
      ensures forall k :: k in next.since ==> Seen(next.since[k], topic) == SlotAt(next.tree, topic)
    {
      LastForConcat(Flat(s.queue), rows, topic);
      RetainSlot(s.tree, rows, topic);
      TopicsOfLast(rows, topic);
      forall k | k in next.since
        ensures Seen(next.since[k], topic) == SlotAt(next.tree, topic)
      {
        LastForConcat(s.since[k].rows, rows, topic);
      }
    }
  }

  lemma BroadcastKeeps(s: State, rows: seq<Row>)
    requires Invariant(s) && TopicsOk(rows)
    ensures Invariant(Next(s, Broadcast(rows)))
  {
    hide Agrees, Tidy, Advanced, TopicsOf, Synchronised;
    var next := Next(s, Broadcast(rows));
    FlatAppend(s.queue, rows);
    ViewsAdvance(s, next, rows);
    forall topic: Path | topic !in next.transient
      ensures LastFor(Flat(next.queue), topic).Some? ==> SlotAt(next.tree, topic) == LastFor(Flat(next.queue), topic)
      ensures forall k :: k in next.since ==> Seen(next.since[k], topic) == SlotAt(next.tree, topic)
    {
      LastForConcat(Flat(s.queue), rows, topic);
      TopicsOfLast(rows, topic);
      forall k | k in next.since
        ensures Seen(next.since[k], topic) == SlotAt(next.tree, topic)
      {
        LastForConcat(s.since[k].rows, rows, topic);
      }
    }
  }

  lemma DispatchKeeps(s: State, messages: seq<Message>)
    requires Invariant(s) && Enabled(s, Dispatch(messages))
    ensures Invariant(Next(s, Dispatch(messages)))
  {
    hide Agrees, Tidy, AllPairs;
    var next, rows := Next(s, Dispatch(messages)), s.queue[0];
    forall topic: Path | topic !in next.transient && LastFor(Flat(next.queue), topic).Some?
      ensures SlotAt(next.tree, topic) == LastFor(Flat(next.queue), topic)
    {
      LastForConcat(rows, Flat(next.queue), topic);
    }
    forall client, filter | (client, filter) in next.since
      ensures Synchronised(next, client, filter)
    {
      assert Synchronised(s, client, filter);
      var at := s.since[(client, filter)].at;
      var inbox := s.inboxes[client];
      assert next.inboxes[client][at..] == inbox[at..] + Delivered(messages, client);
      DispatchedView(inbox[at..], messages, s.subscriptions, rows, client, filter);
    }
  }

  /** The messages of a batch advance a subscribed view by that batch. */
  lemma DispatchedView(inbox: Inbox, messages: seq<Message>, t: Trie<Clients>, rows: seq<Row>, client: string, filter: Path)
    requires Tidy(t) && IsTopic(filter) && QosOf(t, filter, client).Some? && AllPairs(messages, t, rows)
    ensures View(inbox + Delivered(messages, client), filter) == Advanced(View(inbox, filter), filter, rows)
  {
    hide Tidy, View, Delivered, Matching, MessageFor, Overlay;
    DeliveredView(inbox, messages, t, rows, client, filter);
    assert SlotAt(t, filter).Some?;
  }

  /** A snapshot taken now, with the pending batches replayed on it, is seen through those batches. */
  lemma SnapshotReplay(s: State, filter: Path, snapshot: Item)
    requires filter != [] && EVERYTHING_CARD !in filter && IsSnapshot(s.tree, filter, snapshot)
    ensures Agrees(Replay(snapshot, filter, s.queue), RetainAll(s.tree, Flat(s.queue)), filter)
  {
    SnapshotAgrees(s.tree, filter, snapshot);
    ReplayAgrees(snapshot, s.tree, filter, s.queue);
  }

  lemma SyncSubscribeKeeps(s: State, client: string, filter: Path, qos: nat, snapshot: Item)
    requires Invariant(s) && Enabled(s, SyncSubscribe(client, filter, qos, snapshot))
    ensures Invariant(Next(s, SyncSubscribe(client, filter, qos, snapshot)))
  {
    hide Agrees, Tidy, IsSnapshot;
    var next := Next(s, SyncSubscribe(client, filter, qos, snapshot));
    SubscribeTidy(s.subscriptions, filter, client, qos);
    var sent := OutgoingMessage(JoinOf(filter), qos, snapshot);
    forall c, f | (c, f) in next.since
      ensures Synchronised(next, c, f)
    {
      SubscribeUpdates(s.subscriptions, filter, client, qos, f, c);
      var at := next.since[(c, f)].at;
      if c == client && f == filter && EVERYTHING_CARD !in filter {
        assert next.inboxes[c][at..] == [sent] && [sent][..0] == [];
        assert View([sent], f) == Overlay(View([], f), snapshot) == snapshot;
        SnapshotReplay(s, filter, snapshot);
      } else {
        assert Synchronised(s, c, f);
        OtherTopic(s, next, client, filter, sent, c, f);
      }
    }
  }

  /** A message on one filter leaves the views of the others alone. */
  lemma OtherTopic(s: State, next: State, client: string, filter: Path, sent: OutgoingMessage, c: string, f: Path)
    requires Synchronised(s, c, f) && IsTopic(filter) && sent.topic == JoinOf(filter) && (c == client ==> f != filter)
    requires next.tree == s.tree && next.queue == s.queue && (c, f) in next.since && next.since[(c, f)] == s.since[(c, f)]
    requires client in s.inboxes && next.inboxes == s.inboxes[client := s.inboxes[client] + [sent]]
    requires QosOf(next.subscriptions, f, c).Some?
    ensures Synchronised(next, c, f)
  {
    hide Agrees, QosOf, Replay;
    if c == client {
      var at := s.since[(c, f)].at;
      assert next.inboxes[c][at..] == s.inboxes[c][at..] + [sent];
      if JoinOf(filter) == JoinOf(f) {
        JoinInjective(filter, f);
      }
      ViewConcat(s.inboxes[c][at..], [sent], f);
    }
  }

  lemma TableSubscribeKeeps(s: State, client: string, filter: Path, qos: nat, data: Item)
    requires Invariant(s) && Enabled(s, TableSubscribe(client, filter, qos, data))
    ensures Invariant(Next(s, TableSubscribe(client, filter, qos, data)))
  {
    hide Agrees, Tidy;
    var next := Next(s, TableSubscribe(client, filter, qos, data));
    SubscribeTidy(s.subscriptions, filter, client, qos);
    var sent := OutgoingMessage(JoinOf(filter), qos, data);
    forall c, f | (c, f) in next.since
      ensures Synchronised(next, c, f)
    {
      SubscribeUpdates(s.subscriptions, filter, client, qos, f, c);
      assert Synchronised(s, c, f);
      OtherTopic(s, next, client, filter, sent, c, f);
    }
  }

  lemma SubscribeKeeps(s: State, client: string, filter: Path, qos: nat)
    requires Invariant(s) && IsTopic(filter)
    ensures Invariant(Next(s, Subscribe(client, filter, qos)))
  {
    hide Agrees, Tidy, QosOf, Subscribed, Replay, View;
    var next := Next(s, Subscribe(client, filter, qos));
    SubscribeTidy(s.subscriptions, filter, client, qos);
    forall c, f | (c, f) in next.since
      ensures Synchronised(next, c, f)
    {
      assert Synchronised(s, c, f);
      SubscribeUpdates(s.subscriptions, filter, client, qos, f, c);
    }
  }

  lemma UnsubscribeKeeps(s: State, client: string, filter: Path)
    requires Invariant(s) && IsTopic(filter)
    ensures Invariant(Next(s, Unsubscribe(client, filter)))
  {
    hide Agrees, Tidy, QosOf, Unsubscribed, Replay, View;
    var next := Next(s, Unsubscribe(client, filter));
    UnsubscribeTidy(s.subscriptions, filter, client);
    TidyWellFormed(s.subscriptions);
    forall c, f | (c, f) in next.since
      ensures Synchronised(next, c, f)
    {
      assert Synchronised(s, c, f);
      UnsubscribeRemoves(s.subscriptions, filter, client, f, c);
    }
  }

  lemma ConnectionKeeps(s: State, client: string)
    requires Invariant(s)
    ensures Invariant(Next(s, Connect(client))) && Invariant(Next(s, Remove(client)))
  {
    hide Agrees, Tidy, QosOf, Replay, View;
    forall next, c, f | next in {Next(s, Connect(client)), Next(s, Remove(client))} && (c, f) in next.since
      ensures Synchronised(next, c, f)
    {
      assert Synchronised(s, c, f);
    }
  }

  lemma SubscriptionKeeps(s: State, step: Step)
    requires Invariant(s) && Enabled(s, step) && (step.Subscribe? || step.Unsubscribe? || step.Connect? || step.Remove?)
    ensures Invariant(Next(s, step))
  {
    hide Invariant, Next;
    match step {
      case Subscribe(client, filter, qos) => SubscribeKeeps(s, client, filter, qos);
      case Unsubscribe(client, filter) => UnsubscribeKeeps(s, client, filter);
      case Connect(client) => ConnectionKeeps(s, client);
      case Remove(client) => ConnectionKeeps(s, client);
    }
  }

  lemma StepKeeps(s: State, step: Step)
    requires Invariant(s) && Enabled(s, step)
    ensures Invariant(Next(s, step))
  {
    match step
    case Publish(rows) => PublishKeeps(s, rows);
    case Broadcast(rows) => BroadcastKeeps(s, rows);
    case Dispatch(messages) => DispatchKeeps(s, messages);
    case SyncSubscribe(client, filter, qos, snapshot) => SyncSubscribeKeeps(s, client, filter, qos, snapshot);
    case TableSubscribe(client, filter, qos, data) => TableSubscribeKeeps(s, client, filter, qos, data);
    case _ => SubscriptionKeeps(s, step);
  }

  /**
   A dispatch takes the oldest batch and adds to the inbox of each connected client, and of no other, what DeliveredExact
   says of that batch.
   */
  lemma DispatchQueues(s: State, messages: seq<Message>, client: string)
    requires Enabled(s, Dispatch(messages)) && Tidy(s.subscriptions)
    ensures var next := Next(s, Dispatch(messages));
            && next.queue == s.queue[1..] && next.tree == s.tree && next.subscriptions == s.subscriptions
            && next.inboxes.Keys == s.inboxes.Keys
            && (client in s.inboxes ==>
                  && s.inboxes[client] <= next.inboxes[client]
                  && var sent := next.inboxes[client][|s.inboxes[client]|..];
                     && (forall m :: m in sent ==> exists filter :: Sends(s.subscriptions, s.queue[0], client, filter, m))
                     && (forall filter: Path :: QosOf(s.subscriptions, filter, client).Some? && Matching(s.queue[0], filter) != [] ==>
                           exists m :: m in sent && Sends(s.subscriptions, s.queue[0], client, filter, m))
                     && (forall i, j :: 0 <= i < j < |sent| ==> sent[i].topic != sent[j].topic))
  {
    hide Delivered, Matching, QosOf, Sends, Tidy, AllPairs;
    DeliveredExact(messages, s.subscriptions, s.queue[0], client);
    NextDispatch(s, messages);
    if client in s.inboxes {
      var next := Next(s, Dispatch(messages));
      assert next.inboxes[client] == s.inboxes[client] + Delivered(messages, client);
      assert next.inboxes[client][|s.inboxes[client]|..] == Delivered(messages, client);
    }
  }

  // ---------------------------------------------------------------- runs

  ghost predicate Run(start: State, steps: seq<Step>, s: State)
    decreases |steps|
  {
    if steps == [] then s == start
    else
      var last := steps[|steps| - 1];
      exists before :: Run(start, steps[..|steps| - 1], before) && Enabled(before, last) && s == Next(before, last)
  }

  lemma RunNothing(s: State)
    ensures Run(s, [], s)
  {
  }

  lemma RunOn(start: State, steps: seq<Step>, before: State, step: Step)
    requires Run(start, steps, before) && Enabled(before, step)
    ensures Run(start, steps + [step], Next(before, step))
  {
    hide Enabled, Next;
    var all := steps + [step];
    assert all[..|all| - 1] == steps;
    assert all[|all| - 1] == step && Enabled(before, all[|all| - 1]) && Run(start, all[..|all| - 1], before);
    assert Run(start, all, Next(before, all[|all| - 1]));
  }

  lemma RunOne(start: State, step: Step)
    requires Enabled(start, step)
    ensures Run(start, [step], Next(start, step))
  {
    hide Enabled, Next, Run;
    RunNothing(start);
    RunOn(start, [], start, step);
    assert [] + [step] == [step];
  }

  lemma {:induction false} RunJoin(start: State, first: seq<Step>, middle: State, second: seq<Step>, s: State)
    requires Run(start, first, middle) && Run(middle, second, s)
    ensures Run(start, first + second, s)
    decreases |second|
  {
    hide Enabled, Next;
    if second == [] {
      assert first + second == first;
    } else {
      var init, last := second[..|second| - 1], second[|second| - 1];
      var before :| Run(middle, init, before) && Enabled(before, last) && s == Next(before, last);
      RunJoin(start, first, middle, init, before);
      RunOn(start, first + init, before, last);
      assert first + second == first + init + [last];
    }
  }

  /** A broker as it starts: whatever tree preload gave it, and no subscription, client or queued batch. */
  predicate Starting(s: State) {
    s.subscriptions == Empty() && s.queue == [] && s.inboxes == map[] && s.since == map[] && s.transient == {}
  }

  lemma StartKeeps(s: State)
    requires Starting(s)
    ensures Invariant(s)
  {
    EmptyTidy();
  }

  lemma {:induction false} RunKeeps(start: State, steps: seq<Step>, s: State)
    requires Invariant(start) && Run(start, steps, s)
    ensures Invariant(s)
    decreases |steps|
  {
    hide Invariant, Enabled, Next;
    if steps != [] {
      var init, last := steps[..|steps| - 1], steps[|steps| - 1];
      var before :| Run(start, init, before) && Enabled(before, last) && s == Next(before, last);
      RunKeeps(start, init, before);
      StepKeeps(before, last);
    }
  }

  /**
   Quiescent consistency over every run, publishes without retain and snapshots taken between them included: for each
   synchronised subscription, the snapshot overlaid with the deltas dispatched and then with those of the batches still
   queued shows the last row queued at, or published after, the subscribe, else what the tree held then. So it reads like
   a snapshot of the current tree at a topic exactly when that is what the tree shows there now; with an empty queue the
   client's own view does, even if it subscribed while older batches were pending.
   */
  lemma QuiescentConsistencyExact(start: State, steps: seq<Step>, s: State, client: string, filter: Path, current: Item, wild: Path)
    requires Starting(start) && Run(start, steps, s)
    requires (client, filter) in s.since && |wild| == Wilds(filter)
    requires filter != [] && IsSnapshot(s.tree, filter, current)
    ensures client in s.inboxes && s.since[(client, filter)].at <= |s.inboxes[client]|
    ensures var sync, topic := s.since[(client, filter)], Fill(filter, wild);
            var view := View(s.inboxes[client][sync.at..], filter);
            && ValueAt(Replay(view, filter, s.queue), wild) == Visible(Seen(sync, topic))
            && (ValueAt(Replay(view, filter, s.queue), wild) == ValueAt(current, wild)
                <==> Visible(Seen(sync, topic)) == Visible(SlotAt(s.tree, topic)))
            && (s.queue == [] ==> Replay(view, filter, s.queue) == view)
  {
    StartKeeps(start);
    RunKeeps(start, steps, s);
    assert Synchronised(s, client, filter);
    SnapshotAgrees(s.tree, filter, current);
    var sync := s.since[(client, filter)];
    RetainSlot(sync.base, sync.rows, Fill(filter, wild));
  }

  /** At every topic whose latest publish, if any, was retained, that is so. */
  lemma QuiescentConsistency(start: State, steps: seq<Step>, s: State, client: string, filter: Path, current: Item, wild: Path)
    requires Starting(start) && Run(start, steps, s)
    requires (client, filter) in s.since && |wild| == Wilds(filter) && Fill(filter, wild) !in s.transient
    requires filter != [] && IsSnapshot(s.tree, filter, current)
    ensures client in s.inboxes && s.since[(client, filter)].at <= |s.inboxes[client]|
    ensures var view := View(s.inboxes[client][s.since[(client, filter)].at..], filter);
            && ValueAt(Replay(view, filter, s.queue), wild) == ValueAt(current, wild)
            && (s.queue == [] ==> ValueAt(view, wild) == ValueAt(current, wild))
  {
    QuiescentConsistencyExact(start, steps, s, client, filter, current, wild);
    StartKeeps(start);
    RunKeeps(start, steps, s);
  }

  /** Where they differ: a synchronised client is shown a value that the tree does not hold. */
  lemma BroadcastSeenNotStored(client: string, data: bytes)
    requires data != []
    ensures var start := State(Empty(), Empty(), [], map[], map[], {});
            var rows := [Row(["a"], Some(data), 0)];
            var steps := [Connect(client), SyncSubscribe(client, ["a"], 0, Blank), Broadcast(rows)];
            exists s :: Starting(start) && Run(start, steps, s) && (client, ["a"]) in s.since && s.transient == {["a"]}
                        && s.since[(client, ["a"])].at == 0 && client in s.inboxes
                        && ValueAt(Replay(View(s.inboxes[client], ["a"]), ["a"], s.queue), []) == Some(data)
                        && SlotAt(s.tree, ["a"]) == None
  {
    hide Run, Replay, View, ValueAt, Next, Subscribed;
    BroadcastRun(client, data);
    ShownValue(data);
  }

  /** The run of it, and the state it ends in. */
  lemma BroadcastRun(client: string, data: bytes)
    ensures var start := State(Empty(), Empty(), [], map[], map[], {});
            var rows := [Row(["a"], Some(data), 0)];
            Run(start, [Connect(client), SyncSubscribe(client, ["a"], 0, Blank), Broadcast(rows)],
                State(Empty(), Subscribed(Empty(), ["a"], client, 0), [rows], map[client := [OutgoingMessage(JoinOf(["a"]), 0, Blank)]],
                      map[(client, ["a"]) := Sync(0, Empty(), rows)], {["a"]}))
  {
    hide Run, Filtered, Subscribed;
    var start: State := State(Empty(), Empty(), [], map[], map[], {});
    var a := ["a"];
    var rows := [Row(a, Some(data), 0)];
    TopicA(rows);
    MissingFiltered(start.tree, a);
    var one := start.(inboxes := map[client := []]);
    var two := State(Empty(), Subscribed(Empty(), a, client, 0), [], map[client := [OutgoingMessage(JoinOf(a), 0, Blank)]],
                     map[(client, a) := Sync(0, Empty(), [])], {});
    assert Next(start, Connect(client)) == one;
    assert [] + [OutgoingMessage(JoinOf(a), 0, Blank)] == [OutgoingMessage(JoinOf(a), 0, Blank)];
    assert Next(one, SyncSubscribe(client, a, 0, Blank)) == two;
    RunOne(start, Connect(client));
    RunOn(start, [Connect(client)], one, SyncSubscribe(client, a, 0, Blank));
    BroadcastLast(start, [Connect(client)] + [SyncSubscribe(client, a, 0, Blank)], two, rows);
    assert [Connect(client)] + [SyncSubscribe(client, a, 0, Blank)] + [Broadcast(rows)] ==
           [Connect(client), SyncSubscribe(client, a, 0, Blank), Broadcast(rows)];
    assert [] + [rows] == [rows] && [] + rows == rows && two.transient + TopicsOf(rows) == {a};
    assert Seeing(two.since, rows) == map[(client, a) := Sync(0, Empty(), rows)];
  }

  lemma BroadcastLast(start: State, steps: seq<Step>, before: State, rows: seq<Row>)
    requires Run(start, steps, before) && TopicsOk(rows)
    ensures Run(start, steps + [Broadcast(rows)],
                State(before.tree, before.subscriptions, before.queue + [rows], before.inboxes, Seeing(before.since, rows),
                      before.transient + TopicsOf(rows)))
  {
    hide Run, TopicsOf, TopicsOk;
    RunOn(start, steps, before, Broadcast(rows));
  }

  lemma TopicA(rows: seq<Row>)
    requires |rows| == 1 && rows[0].topic == ["a"]
    ensures IsTopic(["a"]) && TopicsOk(rows) && TopicsOf(rows) == {["a"]} && EVERYTHING_CARD !in ["a"]
  {
    assert "a"[0] != SEPARATOR && rows[0] in rows;
  }

  lemma ShownValue(data: bytes)
    requires data != []
    ensures var inbox, rows := [OutgoingMessage(JoinOf(["a"]), 0, Blank)], [Row(["a"], Some(data), 0)];
            ValueAt(Replay(View(inbox, ["a"]), ["a"], [rows]), []) == Some(data)
  {
    hide Replay;
    var a, rows := ["a"], [Row(["a"], Some(data), 0)];
    var inbox := [OutgoingMessage(JoinOf(a), 0, Blank)];
    assert a[1..] == [] && Wilds(a) == 0 && Fill(a, []) == a;
    assert inbox[..0] == [] && View(inbox[..0], a) == Blank && View(inbox, a) == Overlay(Blank, Blank) == Blank;
    ReplayValue(Blank, a, [rows], []);
    assert Flat([rows]) == rows + Flat([]) == rows;
    assert LastFor(rows, a) == Some(Some(data));
  }

  /** Without publishes that are not retained no topic is transient, so nothing is set aside. */
  lemma {:induction false} NothingTransient(start: State, steps: seq<Step>, s: State)
    requires Starting(start) && Run(start, steps, s) && forall step :: step in steps ==> !step.Broadcast?
    ensures s.transient == {}
    decreases |steps|
  {
    hide Enabled, Next;
    if steps != [] {
      var init, last := steps[..|steps| - 1], steps[|steps| - 1];
      var before :| Run(start, init, before) && Enabled(before, last) && s == Next(before, last);
      assert last in steps && forall step :: step in init ==> step in steps;
      NothingTransient(start, init, before);
      NextTransient(before, last);
    }
  }

  lemma NextTransient(s: State, step: Step)
    ensures !step.Broadcast? ==> Next(s, step).transient <= s.transient
    ensures Next(s, step).tree == if step.Publish? then RetainAll(s.tree, step.rows) else s.tree
  {
    hide RetainAll, Subscribed, Unsubscribed, Delivered, TopicsOf, Flat;
  }

  /** The rows a step publishes. */
  function Published(step: Step): seq<Row> {
    match step
    case Publish(rows) => rows
    case Broadcast(rows) => rows
    case _ => []
  }

  /**
   What the exact theorem speaks of: a sync subscribe to a "#"-free filter starts from the tree as it is and the rows that
   are queued; every later publish adds its rows; and it is spoken of until it is ended.
   */
  lemma SyncSubscribeRecorded(s: State, client: string, filter: Path, qos: nat, snapshot: Item, step: Step)
    ensures EVERYTHING_CARD !in filter ==>
              var since := Next(s, SyncSubscribe(client, filter, qos, snapshot)).since;
              (client, filter) in since && since[(client, filter)].base == s.tree && since[(client, filter)].rows == Flat(s.queue)
    ensures (client, filter) in s.since && (client, filter) !in Next(s, step).since ==>
              step == Unsubscribe(client, filter) || step == Remove(client) || step == Connect(client)
              || (step.TableSubscribe? && step.client == client && step.filter == filter)
    ensures (client, filter) in s.since && (client, filter) in Next(s, step).since ==>
              || (step.SyncSubscribe? && step.client == client && step.filter == filter)
              || Next(s, step).since[(client, filter)] ==
                 s.since[(client, filter)].(rows := s.since[(client, filter)].rows + Published(step))
  {
    hide RetainAll, Subscribed, Unsubscribed, Delivered, TopicsOf, Flat;
    assert (client, filter) in s.since ==> s.since[(client, filter)].rows + [] == s.since[(client, filter)].rows;
  }

  /** The rows a run retains, in order. */
  function RetainedRows(steps: seq<Step>): seq<Row> {
    if steps == [] then []
    else RetainedRows(steps[..|steps| - 1]) + if steps[|steps| - 1].Publish? then steps[|steps| - 1].rows else []
  }

  /** The tree of a run is what its retained rows make of the tree it began with. */
  lemma {:induction false} TreeOfRun(start: State, steps: seq<Step>, s: State)
    requires Run(start, steps, s)
    ensures s.tree == RetainAll(start.tree, RetainedRows(steps)) && TopicsOk(RetainedRows(steps))
    decreases |steps|
  {
    hide Enabled, RetainAll, Next;
    if steps == [] {
      NothingRetained(start.tree);
    } else {
      var init, last := steps[..|steps| - 1], steps[|steps| - 1];
      var before :| Run(start, init, before) && Enabled(before, last) && s == Next(before, last);
      TreeOfRun(start, init, before);
      NextTransient(before, last);
      PublishTopics(before, last);
      if last.Publish? {
        RetainConcat(start.tree, RetainedRows(init), last.rows);
      } else {
        assert RetainedRows(init) + [] == RetainedRows(init);
      }
    }
  }

  lemma PublishTopics(s: State, step: Step)
    requires Enabled(s, step)
    ensures step.Publish? ==> TopicsOk(step.rows)
  {
  }

  lemma NothingRetained(t: Trie<Payload>)
    ensures RetainAll(t, []) == t
  {
  }

  lemma {:induction false} RetainedJoin(first: seq<Step>, second: seq<Step>)
    ensures RetainedRows(first + second) == RetainedRows(first) + RetainedRows(second)
    decreases |second|
  {
    if second == [] {
      assert first + second == first;
    } else {
      assert (first + second)[..|first + second| - 1] == first + second[..|second| - 1];
      RetainedJoin(first, second[..|second| - 1]);
    }
  }
}

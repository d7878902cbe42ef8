/** The subscription trie as a finite map from (filter, client) to qos. */
module Subscriptions {
  import opened Wrappers
  import opened Topics
  import opened Tries
  import opened Multiplexer
  import opened RecursiveDefaultDicts

  function ClientsAt(t: Trie<Clients>, filter: Path): Clients {
    SlotAt(t, filter).GetOr(map[])
  }

  function QosOf(t: Trie<Clients>, filter: Path, client: string): Option<nat> {
    var clients := ClientsAt(t, filter);
    if client in clients then Some(clients[client]) else None
  }

  /** The invariant of every reachable trie: no empty branch, no empty client set, and only topics lead to one. */
  ghost predicate Tidy(t: Trie<Clients>) {
    && WellFormed(t) && NoEmptyBranch(t)
    && forall filter: Path :: SlotAt(t, filter).Some? ==> SlotAt(t, filter).value != map[] && IsTopic(filter)
  }

  function Subscribed(t: Trie<Clients>, filter: Path, client: string, qos: nat): Trie<Clients> {
    Put(t, filter, ClientsAt(t, filter)[client := qos])
  }

  function Unsubscribed(t: Trie<Clients>, filter: Path, client: string): Trie<Clients> {
    var left := ClientsAt(t, filter) - {client};
    if left == map[] then Prune(Put(t, filter, left), filter) else Put(t, filter, left)
  }

  lemma TidyWellFormed(t: Trie<Clients>)
    requires Tidy(t)
    ensures WellFormed(t)
  {
  }

  lemma EmptyTidy()
    ensures Tidy(Empty<Clients>())
  {
  }

  /** subscribe is update: its own entry takes the new qos, every other entry stays. */
  lemma SubscribeUpdates(t: Trie<Clients>, filter: Path, client: string, qos: nat, f: Path, c: string)
    ensures QosOf(Subscribed(t, filter, client, qos), f, c) ==
            if f == filter && c == client then Some(qos) else QosOf(t, f, c)
  {
    PutSlot(t, filter, ClientsAt(t, filter)[client := qos], f);
  }

  lemma SubscribeTidy(t: Trie<Clients>, filter: Path, client: string, qos: nat)
    requires Tidy(t) && IsTopic(filter)
    ensures Tidy(Subscribed(t, filter, client, qos))
  {
    var clients := ClientsAt(t, filter)[client := qos];
    assert client in clients;
    NoLeafKey(filter);
    PutWellFormed(t, filter, clients);
    PutNoEmptyBranch(t, filter, clients);
    forall f: Path | SlotAt(Subscribed(t, filter, client, qos), f).Some?
      ensures SlotAt(Subscribed(t, filter, client, qos), f).value != map[] && IsTopic(f)
    {
      PutSlot(t, filter, clients, f);
    }
  }

  lemma UnsubscribeSlot(t: Trie<Clients>, filter: Path, client: string, f: Path)
    requires WellFormed(t) && IsTopic(filter)
    ensures SlotAt(Unsubscribed(t, filter, client), f) ==
            if f != filter then SlotAt(t, f)
            else if ClientsAt(t, filter) - {client} == map[] then None
            else Some(ClientsAt(t, filter) - {client})
    ensures WellFormed(Unsubscribed(t, filter, client))
  {
    var left := ClientsAt(t, filter) - {client};
    NoLeafKey(filter);
    PutWellFormed(t, filter, left);
    PutSlot(t, filter, left, f);
    PutSlot(t, filter, left, filter);
    if left == map[] {
      PruneSlot(Put(t, filter, left), filter, f);
      PruneWellFormed(Put(t, filter, left), filter);
    }
  }

  /** unsubscribe is removal: its own entry goes, every other entry stays. */
  lemma UnsubscribeRemoves(t: Trie<Clients>, filter: Path, client: string, f: Path, c: string)
    requires WellFormed(t) && IsTopic(filter)
    ensures QosOf(Unsubscribed(t, filter, client), f, c) ==
            if f == filter && c == client then None else QosOf(t, f, c)
  {
    UnsubscribeSlot(t, filter, client, f);
    var left := ClientsAt(t, filter) - {client};
    assert c in left <==> c in ClientsAt(t, filter) && c != client;
  }

  lemma UnsubscribeTidy(t: Trie<Clients>, filter: Path, client: string)
    requires Tidy(t) && IsTopic(filter)
    ensures Tidy(Unsubscribed(t, filter, client))
  {
    var left := ClientsAt(t, filter) - {client};
    UnsubscribeSlot(t, filter, client, filter);
    NoLeafKey(filter);
    PutWellFormed(t, filter, left);
    PutNoEmptyBranch(t, filter, left);
    if left == map[] {
      PruneNoEmptyBranch(Put(t, filter, left), filter);
    }
    forall f: Path | SlotAt(Unsubscribed(t, filter, client), f).Some?
      ensures SlotAt(Unsubscribed(t, filter, client), f).value != map[] && IsTopic(f)
    {
      UnsubscribeSlot(t, filter, client, f);
    }
  }

  /**
   Unsubscribing what is not subscribed restores the very same trie, key order included, even though
   the walk first creates the path.
   */
  lemma UnsubscribeAbsent(t: Trie<Clients>, filter: Path, client: string)
    requires Tidy(t) && IsTopic(filter) && QosOf(t, filter, client) == None
    ensures Unsubscribed(t, filter, client) == t
  {
    var clients := ClientsAt(t, filter);
    assert clients - {client} == clients;
    NoLeafKey(filter);
    if SlotAt(t, filter) == None {
      PruneUndoesPut(t, filter, clients);
    } else {
      PutSame(t, filter, clients);
    }
  }

  lemma {:induction false} PutPut(t: Trie<Clients>, path: Path, a: Clients, b: Clients)
    ensures Put(Put(t, path, a), path, b) == Put(t, path, b)
    decreases path
  {
    if path != [] {
      PutPut(Child(t, path[0]), path[1..], a, b);
      assert t.kids[path[0] := Put(Child(t, path[0]), path[1..], a)][path[0] := Put(Child(t, path[0]), path[1..], b)] ==
             t.kids[path[0] := Put(Child(t, path[0]), path[1..], b)];
    }
  }

  /** Unsubscribing right after a first subscribe restores the very same trie. */
  lemma UnsubscribeUndoesSubscribe(t: Trie<Clients>, filter: Path, client: string, qos: nat)
    requires Tidy(t) && IsTopic(filter) && QosOf(t, filter, client) == None
    ensures Unsubscribed(Subscribed(t, filter, client, qos), filter, client) == t
  {
    var clients := ClientsAt(t, filter);
    var more := clients[client := qos];
    PutSlot(t, filter, more, filter);
    assert more - {client} == clients - {client};
    PutPut(t, filter, more, clients - {client});
    UnsubscribeAbsent(t, filter, client);
  }

  // ---------------------------------------------------------------- several topics at once

  /** Broker.unsubscribe over a list of topic strings. */
  function UnsubscribedAll(t: Trie<Clients>, topics: seq<string>, client: string): Trie<Clients> {
    if topics == [] then t
    else Unsubscribed(UnsubscribedAll(t, topics[..|topics| - 1], client), Split(topics[|topics| - 1]), client)
  }

  lemma {:induction false} UnsubscribeAllRemoves(t: Trie<Clients>, topics: seq<string>, client: string, topic: string, c: string)
    requires Tidy(t)
    ensures Tidy(UnsubscribedAll(t, topics, client))
    ensures QosOf(UnsubscribedAll(t, topics, client), Split(topic), c) ==
            if c == client && topic in topics then None else QosOf(t, Split(topic), c)
  {
    if topics != [] {
      var init, last := topics[..|topics| - 1], topics[|topics| - 1];
      assert topics == init + [last];
      UnsubscribeAllRemoves(t, init, client, topic, c);
      UnsubscribeTidy(UnsubscribedAll(t, init, client), Split(last), client);
      UnsubscribeRemoves(UnsubscribedAll(t, init, client), Split(last), client, Split(topic), c);
      JoinSplit(last);
      JoinSplit(topic);
    }
  }

  /**
   A client's handler and the broker hold the same subscriptions for it; a stale handler, one that is gone and was not
   removed, may still list some that have ended.
   */
  ghost predicate Agreed(t: Trie<Clients>, client: string, held: set<string>, stale: bool) {
    forall topic: string ::
      (QosOf(t, Split(topic), client).Some? ==> topic in held) && (!stale && topic in held ==> QosOf(t, Split(topic), client).Some?)
  }

  /** Leaving: once a handler has unsubscribed all it holds, its id occurs nowhere and no other entry has changed. */
  lemma LeavesNothing(t: Trie<Clients>, client: string, held: set<string>, topics: seq<string>, filter: Path, c: string)
    requires Tidy(t) && Agreed(t, client, held, true) && (forall topic :: topic in topics <==> topic in held)
    ensures QosOf(UnsubscribedAll(t, topics, client), filter, c) == if c == client then None else QosOf(t, filter, c)
  {
    UnsubscribeAllRemoves(t, topics, client, "", c);
    if IsTopic(filter) {
      SplitJoin(filter);
      UnsubscribeAllRemoves(t, topics, client, Join(filter), c);
      assert QosOf(t, Split(Join(filter)), client).Some? ==> Join(filter) in held;
    } else {
      assert SlotAt(t, filter) == None && SlotAt(UnsubscribedAll(t, topics, client), filter) == None;
    }
  }

  lemma LeavesGone(t: Trie<Clients>, client: string, held: set<string>, topics: seq<string>)
    requires Tidy(t) && Agreed(t, client, held, true) && (forall topic :: topic in topics <==> topic in held)
    ensures Gone(t, UnsubscribedAll(t, topics, client), client)
  {
    forall filter: Path, c
      ensures QosOf(UnsubscribedAll(t, topics, client), filter, c) == if c == client then None else QosOf(t, filter, c)
    {
      LeavesNothing(t, client, held, topics, filter, c);
    }
  }

  /** One client's entries are gone and every other entry is as it was. */
  ghost predicate Gone(before: Trie<Clients>, after: Trie<Clients>, client: string) {
    forall filter: Path, c :: QosOf(after, filter, c) == if c == client then None else QosOf(before, filter, c)
  }

  lemma GoneAgrees(before: Trie<Clients>, after: Trie<Clients>, client: string, c: string, held: set<string>, stale: bool)
    requires Gone(before, after, client) && Agreed(before, c, held, stale) && c != client
    ensures Agreed(after, c, held, stale)
  {
  }

  lemma SubscribeAgrees(t: Trie<Clients>, client: string, topic: string, qos: nat, c: string, held: set<string>, stale: bool)
    requires Agreed(t, c, held, stale)
    ensures Agreed(Subscribed(t, Split(topic), client, qos), c, if c == client then held + {topic} else held, stale)
  {
    hide Subscribed, Unsubscribed, QosOf, Tidy, Split, Join;
    forall other: string
      ensures QosOf(Subscribed(t, Split(topic), client, qos), Split(other), c) ==
              if other == topic && c == client then Some(qos) else QosOf(t, Split(other), c)
    {
      SubscribeUpdates(t, Split(topic), client, qos, Split(other), c);
      JoinSplit(other);
      JoinSplit(topic);
    }
  }

  lemma UnsubscribeAgrees(t: Trie<Clients>, client: string, topic: string, c: string, held: set<string>, stale: bool)
    requires Tidy(t) && Agreed(t, c, held, stale)
    ensures Agreed(Unsubscribed(t, Split(topic), client), c, if c == client then held - {topic} else held, stale)
  {
    hide Subscribed, Unsubscribed, QosOf, Tidy, Split, Join;
    assert WellFormed(t) by {
      TidyWellFormed(t);
    }
    forall other: string
      ensures QosOf(Unsubscribed(t, Split(topic), client), Split(other), c) ==
              if other == topic && c == client then None else QosOf(t, Split(other), c)
    {
      UnsubscribeRemoves(t, Split(topic), client, Split(other), c);
      JoinSplit(other);
      JoinSplit(topic);
    }
  }

  // ---------------------------------------------------------------- the sync prefix

  /** The topic of a SUBSCRIBE request, its sync prefix removed. */
  function Unprefixed(topic: string): string
    requires topic != ""
  {
    if topic[0] == SEPARATOR then topic[1..] else topic
  }

  function SubscribedAll(t: Trie<Clients>, requests: seq<(string, nat)>, client: string): Trie<Clients>
    requires forall request :: request in requests ==> request.0 != ""
  {
    if requests == [] then t
    else
      var last := requests[|requests| - 1];
      assert last in requests;
      Subscribed(SubscribedAll(t, requests[..|requests| - 1], client), Split(Unprefixed(last.0)), client, last.1)
  }

  lemma {:induction false} SubscribeAllAdds(t: Trie<Clients>, requests: seq<(string, nat)>, client: string, topic: string, c: string)
    requires Tidy(t) && forall request :: request in requests ==> request.0 != ""
    ensures Tidy(SubscribedAll(t, requests, client))
    ensures QosOf(SubscribedAll(t, requests, client), Split(topic), c).Some? <==>
            QosOf(t, Split(topic), c).Some? || (c == client && exists request :: request in requests && Unprefixed(request.0) == topic)
  {
    hide Tidy, QosOf, Subscribed, Split, Join, Unprefixed;
    if requests != [] {
      var init, last := requests[..|requests| - 1], requests[|requests| - 1];
      assert last in requests && requests == init + [last];
      SubscribeAllAdds(t, init, client, topic, c);
      var before, ended := SubscribedAll(t, init, client), Unprefixed(last.0);
      SubscribeTidy(before, Split(ended), client, last.1);
      SubscribeUpdates(before, Split(ended), client, last.1, Split(topic), c);
      JoinSplit(topic);
      JoinSplit(ended);
    }
  }

  /** The last request for a topic sets its qos. */
  lemma {:induction false} SubscribeAllLast(t: Trie<Clients>, requests: seq<(string, nat)>, client: string, i: nat)
    requires Tidy(t) && i < |requests| && forall request :: request in requests ==> request.0 != ""
    requires forall j :: i < j < |requests| ==> Unprefixed(requests[j].0) != Unprefixed(requests[i].0)
    ensures QosOf(SubscribedAll(t, requests, client), Split(Unprefixed(requests[i].0)), client) == Some(requests[i].1)
    decreases |requests|
  {
    hide QosOf, Subscribed, Split, Unprefixed;
    var init, last := requests[..|requests| - 1], requests[|requests| - 1];
    assert last in requests && forall request :: request in init ==> request in requests;
    var before := SubscribedAll(t, init, client);
    SubscribeUpdates(before, Split(Unprefixed(last.0)), client, last.1, Split(Unprefixed(requests[i].0)), client);
    if i < |init| {
      SubscribeAllLast(t, init, client, i);
      JoinSplit(Unprefixed(last.0));
      JoinSplit(Unprefixed(requests[i].0));
    }
  }

  /**
   After a SUBSCRIBE and then an UNSUBSCRIBE, whatever topics either lists, a subscribed filter is still there
   exactly when the UNSUBSCRIBE does not list it without its prefix.
   */
  lemma UnsubscribeEnds(t: Trie<Clients>, requests: seq<(string, nat)>, topics: seq<string>, client: string, request: (string, nat))
    requires Tidy(t) && (forall r :: r in requests ==> r.0 != "") && request in requests
    ensures QosOf(UnsubscribedAll(SubscribedAll(t, requests, client), topics, client), Split(Unprefixed(request.0)), client).Some?
            <==> Unprefixed(request.0) !in topics
  {
    SubscribeAllAdds(t, requests, client, Unprefixed(request.0), client);
    UnsubscribeAllRemoves(SubscribedAll(t, requests, client), topics, client, Unprefixed(request.0), client);
  }

  /** Unsubscribing with the string that was subscribed ends the subscription exactly when it had no sync prefix. */
  lemma UnsubscribeSameString(t: Trie<Clients>, topic: string, qos: nat, client: string)
    requires Tidy(t) && topic != ""
    ensures QosOf(UnsubscribedAll(SubscribedAll(t, [(topic, qos)], client), [topic], client), Split(Unprefixed(topic)), client).Some?
            <==> topic[0] == SEPARATOR
  {
    UnsubscribeEnds(t, [(topic, qos)], [topic], client, (topic, qos));
    assert topic[0] == SEPARATOR ==> |Unprefixed(topic)| < |topic|;
  }

  /** SUBSCRIBE "/a", then UNSUBSCRIBE "/a": the client is still subscribed to "a". */
  lemma PrefixedStays(client: string)
    ensures QosOf(UnsubscribedAll(SubscribedAll(Empty(), [("/a", 1)], client), ["/a"], client), ["a"], client).Some?
  {
    EmptyTidy();
    UnsubscribeSameString(Empty(), "/a", 1, client);
    var a := ["a"];
    assert "/a"[1..] == "a" && Join(a) == "a" && "a"[0] != SEPARATOR;
    SplitJoin(a);
  }

  // ---------------------------------------------------------------- the code

  /** Broker.subscribe, once the topic is split: client_set = subscriptions << nodes; client_set[id] = qos. */
  method AddClient(subscriptions: RecursiveDefaultDict<Clients>, filter: Path, client: string, qos: nat)
    requires subscriptions.Valid() && subscriptions.defaultValue == map[] && IsTopic(filter)
    modifies subscriptions.Repr
    ensures subscriptions.Valid() && fresh(subscriptions.Repr - old(subscriptions.Repr))
    ensures subscriptions.Value == Subscribed(old(subscriptions.Value), filter, client, qos)
  {
    hide RecursiveDefaultDict.Valid, RecursiveDefaultDict.Linked;
    NoLeafKey(filter);
    var clientSet := subscriptions.Shift(filter);
    PutPut(old(subscriptions.Value), filter, clientSet, clientSet[client := qos]);
    subscriptions.Assign(filter, clientSet[client := qos]);
  }

  /** The loop body of Broker.unsubscribe; found is what pop returned, read as a truth value. */
  method RemoveClient(subscriptions: RecursiveDefaultDict<Clients>, filter: Path, client: string) returns (found: bool)
    requires subscriptions.Valid() && subscriptions.defaultValue == map[] && IsTopic(filter)
    modifies subscriptions.Repr
    ensures subscriptions.Valid() && fresh(subscriptions.Repr - old(subscriptions.Repr))
    ensures subscriptions.Value == Unsubscribed(old(subscriptions.Value), filter, client)
    ensures found <==> QosOf(old(subscriptions.Value), filter, client).GetOr(0) != 0
  {
    hide RecursiveDefaultDict.Valid, RecursiveDefaultDict.Linked, RecursiveDefaultDict.Separate;
    NoLeafKey(filter);
    var clientSet := subscriptions.Shift(filter);
    found := client in clientSet && clientSet[client] != 0;
    var left := clientSet - {client};
    PutPut(old(subscriptions.Value), filter, clientSet, left);
    subscriptions.Assign(filter, left);
    if left == map[] {
      PutSlot(old(subscriptions.Value), filter, left, filter);
      subscriptions.CascadeDelete(filter);
    }
  }
}

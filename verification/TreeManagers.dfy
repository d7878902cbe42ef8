/** tree/manager.py, backends/ and models/messages.py: the retained tree in memory, its task queue and its worker. */
module TreeManagers {
  import opened Wrappers
  import opened Bytes
  import opened Topics
  import opened Tries
  import opened Rows
  import opened Items
  import opened RecursiveDefaultDicts
  import opened Filters
  import opened ApplicableRows
  import opened Flattening
  import opened Expansion
  import opened Persistence
  import opened Snapshots
  import Graft

  /** tree is what the JSON parser makes of the data; only a graft reads it. */
  datatype IncomingMessage = IncomingMessage(topic: Path, qos: nat, retain: bool, graft: bool, data: Payload, tree: Item)

  datatype OutgoingMessage = OutgoingMessage(topic: string, qos: nat, data: Item)

  const MANY_CARD_TEXT: Item := Text([0x2B])

  /** from_raw_data: a trailing separator on a retained topic asks for a graft. */
  function FromRawData(rawTopic: string, qos: nat, retain: bool, data: Payload, tree: Item): Result<IncomingMessage> {
    if retain then
      if rawTopic == [] then Err(EmptyTopic)
      else
        var last := |rawTopic| - 1;
        var graft := rawTopic[last] == SEPARATOR;
        var topic := Split(if graft then rawTopic[..last] else rawTopic);
        Ok(IncomingMessage(topic, qos, true, graft, data, tree))
    else Ok(IncomingMessage(Split(rawTopic), qos, false, false, data, tree))
  }

  /** The raw topic can be told from the message; only a retained message without a topic is refused. */
  lemma RawTopicKept(rawTopic: string, qos: nat, retain: bool, data: Payload, tree: Item)
    ensures var r := FromRawData(rawTopic, qos, retain, data, tree);
            && (r.Err? <==> retain && rawTopic == "")
            && (r.Ok? ==> r.value.qos == qos && r.value.data == data && r.value.tree == tree)
            && (r.Ok? ==>
                  && IsTopic(r.value.topic) && r.value.retain == retain && (r.value.graft ==> retain)
                  && Join(r.value.topic) + (if r.value.graft then [SEPARATOR] else []) == rawTopic
                  && (retain && !r.value.graft ==> r.value.topic[|r.value.topic| - 1] != ""))
  {
    if retain && rawTopic != [] {
      var last := |rawTopic| - 1;
      JoinSplit(rawTopic[..last]);
      assert rawTopic[..last] + [rawTopic[last]] == rawTopic;
      LastNode(rawTopic);
    }
    JoinSplit(rawTopic);
    assert rawTopic + [] == rawTopic;
  }

  lemma {:induction false} LastNode(s: string)
    requires s != []
    ensures Split(s)[|Split(s)| - 1] == "" <==> s[|s| - 1] == SEPARATOR
    decreases |s|
  {
    var rest := Split(s[1..]);
    assert Split(s) == if s[0] == SEPARATOR then [[]] + rest else [[s[0]] + rest[0]] + rest[1..];
    hide Split;
    if |s| == 1 {
      EmptySplit();
    } else {
      LastNode(s[1..]);
    }
  }

  lemma EmptySplit()
    ensures Split([]) == [[]]
  {
  }

  // ---------------------------------------------------------------- rows have good topics

  /** Every key of the tree is a topic node. */
  ghost predicate NodesOk(t: Trie<Payload>) {
    forall k :: k in t.kids ==> IsNode(k) && NodesOk(t.kids[k])
  }

  ghost predicate ItemNodesOk(item: Item) {
    item.Obj? ==> forall k :: k in item.entries ==> IsNode(k) && ItemNodesOk(item.entries[k])
  }

  lemma {:induction false} PathNodes(t: Trie<Payload>, path: Path)
    requires NodesOk(t) && HasPath(t, path)
    ensures forall node :: node in path ==> IsNode(node)
  {
    if path != [] {
      assert path == [path[0]] + path[1..];
      PathNodes(t.kids[path[0]], path[1..]);
    }
  }

  lemma {:induction false} SlotPath(t: Trie<Payload>, path: Path)
    requires SlotAt(t, path).Some?
    ensures HasPath(t, path)
  {
    if path != [] {
      SlotPath(t.kids[path[0]], path[1..]);
    }
  }

  lemma {:induction false} PutNodesOk(t: Trie<Payload>, path: Path, data: Payload)
    requires NodesOk(t) && forall node :: node in path ==> IsNode(node)
    ensures NodesOk(Put(t, path, data))
    decreases path
  {
    if path != [] {
      assert path[0] in path && forall node :: node in path[1..] ==> node in path;
      PutNodesOk(Child(t, path[0]), path[1..], data);
    }
  }

  lemma {:induction false} RetainNodesOk(t: Trie<Payload>, rows: seq<Row>)
    requires NodesOk(t) && TopicsOk(rows)
    ensures NodesOk(RetainAll(t, rows))
  {
    if rows != [] {
      var init, last := rows[..|rows| - 1], rows[|rows| - 1];
      assert last in rows;
      RetainNodesOk(t, init);
      PutNodesOk(RetainAll(t, init), last.topic, last.data);
    }
  }

  /** Every topic a publish expands to is a topic. */
  lemma AppliesTopic(t: Trie<Payload>, topic: Path, q: Path)
    requires NodesOk(t) && IsTopic(topic) && Applies(t, topic, false, q)
    ensures IsTopic(q)
  {
    var n := |topic| - 1;
    if topic[n] == EVERYTHING_CARD {
      SlotPath(t, q);
      PathNodes(t, q);
    } else if q != topic {
      PathNodes(t, q[..n]);
      assert q == q[..n] + [q[n]];
      if topic[n] == MANY_CARD {
        PathNodes(t, q);
      } else {
        assert q[n] == topic[n] && topic[n] in topic;
      }
    }
  }

  lemma {:induction false} ItemPathNodes(topic: Path, item: Item, q: Path, wild: Path)
    requires ItemNodesOk(item) && Matches(topic, q) && wild == Project(topic, q)
    requires forall node :: node in topic ==> IsNode(node)
    requires ItemAt(item, wild).Some?
    ensures forall node :: node in q ==> IsNode(node)
    decreases topic
  {
    if topic != [] {
      ProjectStep(topic, q);
      assert q == [q[0]] + q[1..] && topic[0] in topic;
      assert forall node :: node in topic[1..] ==> node in topic;
      if IsNodeStatic(topic[0]) {
        ItemPathNodes(topic[1..], item, q[1..], wild);
      } else {
        assert wild[1..] == Project(topic[1..], q[1..]);
        ItemPathNodes(topic[1..], item.entries[wild[0]], q[1..], wild[1..]);
      }
    }
  }

  lemma EmittedTopic(t: Trie<Payload>, topic: Path, data: Item, replace: bool, q: Path)
    requires NodesOk(t) && IsTopic(topic) && ItemNodesOk(data) && Emitted(t, topic, data, replace, q).Some?
    ensures IsTopic(q)
  {
    if ItemAt(data, Project(topic, q)).Some? {
      ItemPathNodes(topic, data, q, Project(topic, q));
    } else {
      SlotPath(t, q);
      PathNodes(t, q);
    }
  }

  // ---------------------------------------------------------------- what one retained publish does

  /** The rows of a retained message that is not a graft: its expansion, in order. */
  function PlainRows(t: Trie<Payload>, message: IncomingMessage): Result<seq<Row>>
    requires message.topic != []
  {
    var topics :- Expand(t, message.topic, false);
    Ok(RowsFor([], topics, message.data, message.qos))
  }

  /** data.pop(LEAF_KEY, None): a graft's flag, and the tree without it. */
  function GraftFlag(tree: Item): Option<Item> {
    if tree.Obj? && LEAF_KEY in tree.entries then Some(tree.entries[LEAF_KEY]) else None
  }

  function GraftData(tree: Item): Item {
    if tree.Obj? then Obj(tree.entries - {LEAF_KEY}) else tree
  }

  ghost predicate RowsOf(rows: seq<Row>, t: Trie<Payload>, message: IncomingMessage)
    requires message.topic != []
  {
    if message.graft then
      var data := GraftData(message.tree);
      Fits(message.topic, data) &&
      Flattened(rows, t, message.topic, data, GraftFlag(message.tree) == Some(MANY_CARD_TEXT), message.qos, [])
    else PlainRows(t, message) == Ok(rows)
  }

  lemma RowsOfTopics(rows: seq<Row>, t: Trie<Payload>, message: IncomingMessage)
    requires IsTopic(message.topic) && WellFormed(t) && NodesOk(t) && ItemNodesOk(GraftData(message.tree))
    requires RowsOf(rows, t, message)
    ensures TopicsOk(rows)
  {
    forall row | row in rows
      ensures IsTopic(row.topic)
    {
      if message.graft {
        assert row.topic[0..] == row.topic;
        EmittedTopic(t, message.topic, GraftData(message.tree), GraftFlag(message.tree) == Some(MANY_CARD_TEXT), row.topic);
      } else {
        var topics := Expand(t, message.topic, false).value;
        var i :| 0 <= i < |rows| && rows[i] == row;
        assert [] + topics[i] == topics[i];
        ExpandExact(t, message.topic, false, row.topic);
        AppliesTopic(t, message.topic, row.topic);
      }
    }
  }

  /** Any other message sets the topics it applies to, those alone, to its data; its rows have its data and its qos. */
  lemma PlainKeys(t: Trie<Payload>, message: IncomingMessage, rows: seq<Row>, q: Path)
    requires !message.graft && message.topic != [] && WellFormed(t) && RowsOf(rows, t, message)
    ensures SlotAt(RetainAll(t, rows), q) == if Applies(t, message.topic, false, q) then Some(message.data) else SlotAt(t, q)
    ensures forall row :: row in rows ==> row.data == message.data && row.qos == message.qos
  {
    hide Expand, Applies, SlotAt;
    var topics := Expand(t, message.topic, false).value;
    forall row | row in rows
      ensures row.data == message.data && row.qos == message.qos && row.topic in topics
    {
      var i :| 0 <= i < |rows| && rows[i] == row;
      assert [] + topics[i] == topics[i];
    }
    ExpandExact(t, message.topic, false, q);
    RetainSlot(t, rows, q);
    LastForIn(rows, q);
    if q in topics {
      var i :| 0 <= i < |topics| && topics[i] == q;
      assert [] + q == q && rows[i].topic == q && rows[i] in rows;
    }
  }

  /** So has every row of a graft its qos. */
  lemma GraftQos(t: Trie<Payload>, message: IncomingMessage, rows: seq<Row>, row: Row)
    requires message.graft && message.topic != [] && RowsOf(rows, t, message) && row in rows
    ensures row.qos == message.qos
  {
  }

  /** The object a grafted message has at a path of keys, its flag aside. */
  function GraftedAt(tree: Item, parent: Path): Option<map<string, Item>> {
    var at := ItemAt(tree, parent);
    if (parent != [] && parent[0] == "/") || at.None? || !at.value.Obj? then None
    else Some(if parent == [] then at.value.entries - {"/"} else at.value.entries)
  }

  /** A grafted object whose key "/" holds "+" replaces what is there. */
  predicate Replaces(tree: Item) {
    tree.Obj? && "/" in tree.entries && tree.entries["/"] == Text([0x2B])
  }

  lemma GraftDataAt(tree: Item, parent: Path)
    requires GraftedAt(tree, parent).Some?
    ensures ItemAt(GraftData(tree), parent) == Some(Obj(GraftedAt(tree, parent).value))
    ensures (GraftFlag(tree) == Some(MANY_CARD_TEXT)) == Replaces(tree)
  {
  }

  /**
   What a graft to a topic that ends in "+" leaves under each parent its data reaches: a key of the data has the data's
   string; any other key is deleted if the message's own flag asks for it, and else left as it was.
   */
  lemma GraftKeys(t: Trie<Payload>, message: IncomingMessage, rows: seq<Row>, parent: Path, key: string)
    requires message.graft && message.topic != [] && RowsOf(rows, t, message)
    requires message.topic[|message.topic| - 1] == "+" && "#" !in message.topic && |parent| + 1 == Wilds(message.topic)
    requires GraftedAt(message.tree, parent).Some?
    ensures var entries, q := GraftedAt(message.tree, parent).value, Fill(message.topic, parent + [key]);
            var slot := SlotAt(RetainAll(t, rows), q);
            if key in entries then entries[key].Text? && slot == Some(Some(entries[key].data))
            else slot == if Replaces(message.tree) && SlotAt(t, q).Some? then Some(None) else SlotAt(t, q)
  {
    var topic, data, wild := message.topic, GraftData(message.tree), parent + [key];
    var replace := GraftFlag(message.tree) == Some(MANY_CARD_TEXT);
    GraftDataAt(message.tree, parent);
    ProjectFill(topic, wild);
    RetainSlot(t, rows, Fill(topic, wild));
    Graft.FlattenedLast(rows, t, topic, data, replace, message.qos, Fill(topic, wild));
    Graft.ItemAtKey(data, parent, key);
    Graft.FitsTexts(topic, data, wild);
    assert wild[..|wild| - 1] == parent;
  }

  /** A graft to a topic that ends in a static node leaves the data's strings, and all else as it was. */
  lemma GraftValues(t: Trie<Payload>, message: IncomingMessage, rows: seq<Row>, wild: Path)
    requires message.graft && message.topic != [] && RowsOf(rows, t, message)
    requires message.topic[|message.topic| - 1] != "+" && "#" !in message.topic && |wild| == Wilds(message.topic)
    ensures var q, found := Fill(message.topic, wild), ItemAt(GraftData(message.tree), wild);
            if found.None? then SlotAt(RetainAll(t, rows), q) == SlotAt(t, q)
            else found.value.Text? && SlotAt(RetainAll(t, rows), q) == Some(Some(found.value.data))
  {
    var topic, data := message.topic, GraftData(message.tree);
    var replace := GraftFlag(message.tree) == Some(MANY_CARD_TEXT);
    ProjectFill(topic, wild);
    RetainSlot(t, rows, Fill(topic, wild));
    Graft.FlattenedLast(rows, t, topic, data, replace, message.qos, Fill(topic, wild));
    Graft.FitsTexts(topic, data, wild);
  }

  /** Without that flag a graft deletes nothing. */
  lemma GraftMerges(t: Trie<Payload>, message: IncomingMessage, rows: seq<Row>, row: Row)
    requires message.graft && message.topic != [] && RowsOf(rows, t, message)
    requires !Replaces(message.tree) && row in rows
    ensures row.data.Some?
  {
    assert (GraftFlag(message.tree) == Some(MANY_CARD_TEXT)) == Replaces(message.tree);
  }

  // ---------------------------------------------------------------- the manager

  class TreeManager {
    var tree: RecursiveDefaultDict<Payload>
    var tasks: seq<Row>

    ghost predicate Valid()
      reads this, tree, tree.Repr
    {
      tree.Valid() && NodesOk(tree.Value)
    }

    constructor ()
      ensures Valid() && fresh(tree.Repr) && tree.Value == Empty() && tasks == []
    {
      tree := new RecursiveDefaultDict(None);
      tasks := [];
    }

    /** The states of the worker's machine in which this manager is. */
    ghost predicate In(s: State)
      reads this, tree
    {
      s.tree == tree.Value && s.pending == tasks
    }

    method AddTasks(rows: seq<Row>)
      modifies this`tasks
      ensures tasks == old(tasks) + rows
    {
      tasks := tasks + rows;
    }

    /** Rows go to the worker's list in order, and each assigns its leaf in the tree. */
    method RetainRows(rows: seq<Row>)
      requires Valid() && TopicsOk(rows)
      modifies this`tasks, tree.Repr
      ensures Valid() && fresh(tree.Repr - old(tree.Repr))
      ensures tree.Value == RetainAll(old(tree.Value), rows) && tasks == old(tasks) + rows
      ensures forall s: State :: old(In(s)) ==> Persistence.Enabled(s, Retain(rows)) && In(Persistence.Next(s, Retain(rows)))
    {
      hide RecursiveDefaultDict.Valid, RecursiveDefaultDict.Linked;
      AddTasks(rows);
      for i := 0 to |rows|
        invariant tree.Valid() && fresh(tree.Repr - old(tree.Repr))
        invariant tree.Value == RetainAll(old(tree.Value), rows[..i]) && tasks == old(tasks) + rows
      {
        assert rows[i] in rows && rows[..i + 1][..i] == rows[..i];
        NoLeafKey(rows[i].topic);
        tree.Assign(rows[i].topic, rows[i].data);
      }
      assert rows[..|rows|] == rows;
      RetainNodesOk(old(tree.Value), rows);
    }

    method ProcessMessage(message: IncomingMessage) returns (r: Result<seq<Row>>)
      requires Valid() && IsTopic(message.topic) && ItemNodesOk(GraftData(message.tree))
      modifies this`tasks, tree.Repr
      ensures Valid() && fresh(tree.Repr - old(tree.Repr))
      ensures r.Ok? <==> if message.graft then Fits(message.topic, GraftData(message.tree)) else PlainRows(old(tree.Value), message).Ok?
      ensures r.Ok? ==> RowsOf(r.value, old(tree.Value), message) && TopicsOk(r.value)
      ensures r.Ok? ==> tree.Value == RetainAll(old(tree.Value), r.value) && tasks == old(tasks) + r.value
      ensures r.Err? ==> tree.Value == old(tree.Value) && tasks == old(tasks)
      ensures forall s: State :: old(In(s)) ==> In(if r.Ok? then Persistence.Next(s, Retain(r.value)) else s)
    {
      hide RecursiveDefaultDict.Valid, RecursiveDefaultDict.Linked;
      if message.graft {
        r := FlattenMessageIntoRows(message.topic, GraftData(message.tree), message.qos, [], tree,
                                    GraftFlag(message.tree) == Some(MANY_CARD_TEXT));
      } else {
        r := GetApplicableRows(message.topic, message.data, message.qos, [], tree, false);
      }
      if r.Ok? {
        tree.ValueWellFormed();
        RowsOfTopics(r.value, tree.Value, message);
        RetainRows(r.value);
      }
    }

    method Filter(topic: Path) returns (r: Result<Item>)
      requires Valid() && topic != []
      ensures Filtered(tree.Value, topic, r)
      ensures topic == [EVERYTHING_CARD] ==> r == Ok(Whole(tree.Value))
    {
      r := FilterTree(topic, tree, false);
    }

    method GetMessage(topic: Path, qos: nat) returns (r: Result<OutgoingMessage>)
      requires Valid() && topic != []
      ensures r.Ok? ==> r.value == OutgoingMessage(Join(topic), qos, r.value.data)
      ensures Filtered(tree.Value, topic, if r.Ok? then Ok(r.value.data) else Err(r.error))
    {
      hide Filtered;
      var item :- Filter(topic);
      r := Ok(OutgoingMessage(Join(topic), qos, item));
    }

    /** The tree a fresh process builds from the table, whatever order its rows come in. */
    method Preload(db: Table)
      modifies this`tree
      ensures Valid() && fresh(tree.Repr)
      ensures Loaded(db, tree.Value)
      ensures Restorable(db) <==> Mirrors(db, tree.Value)
    {
      hide RecursiveDefaultDict.Valid, RecursiveDefaultDict.Linked, Mirrors, Restorable, Loaded;
      var results := new RecursiveDefaultDict<Payload>(None);
      var todo := db.Keys;
      NothingLoaded(db - todo);
      while todo != {}
        invariant todo <= db.Keys
        invariant results.Valid() && fresh(results.Repr) && NodesOk(results.Value) && Loaded(db - todo, results.Value)
        decreases todo
      {
        var topic :| topic in todo;
        var splitTopic := Split(topic);
        var pointer: Path := [];
        for i := 0 to |splitTopic|
          invariant pointer == Skipped(splitTopic[..i])
        {
          assert splitTopic[..i + 1][..i] == splitTopic[..i];
          if splitTopic[i] != "" {
            pointer := pointer + [splitTopic[i]];
          }
        }
        assert splitTopic[..|splitTopic|] == splitTopic;
        SkippedNodes(splitTopic);
        PutNodesOk(results.Value, pointer, Some(db[topic].data));
        LoadedStep(db, todo, topic, results.Value);
        results.Assign(pointer, Some(db[topic].data));
        todo := todo - {topic};
      }
      assert db - todo == db;
      tree := results;
      LoadedExact(db, tree.Value);
    }
  }

  lemma {:induction false} SkippedNodes(nodes: Path)
    requires forall node :: node in nodes ==> IsNode(node)
    ensures LEAF_KEY !in Skipped(nodes) && forall node :: node in Skipped(nodes) ==> IsNode(node)
  {
    assert SEPARATOR == LEAF_KEY[0] && !IsNode(LEAF_KEY);
    if nodes != [] {
      var init := nodes[..|nodes| - 1];
      assert nodes == init + [nodes[|nodes| - 1]];
      SkippedNodes(init);
    }
  }

  lemma {:induction false} SkippedNames(nodes: Path)
    ensures NonEmptyNodes(Skipped(nodes))
  {
    if nodes != [] {
      SkippedNames(nodes[..|nodes| - 1]);
    }
  }

  /** The string is stored, and its topic without the empty nodes is the path. */
  predicate Loads(db: Table, s: string, path: Path) {
    s in db && Skipped(Split(s)) == path
  }

  /** What preload makes of a table: a leaf for each stored topic, at its path without the empty nodes, and no other. */
  ghost predicate Loaded(db: Table, t: Trie<Payload>) {
    && (forall s :: s in db ==> SlotAt(t, Skipped(Split(s))).Some?)
    && (forall path: Path :: SlotAt(t, path).Some? ==> exists s :: Loads(db, s, path) && SlotAt(t, path) == Some(Some(db[s].data)))
  }

  lemma NothingLoaded(db: Table)
    requires db == map[]
    ensures Loaded(db, Empty())
  {
  }

  lemma LoadedStep(db: Table, todo: set<string>, topic: string, t: Trie<Payload>)
    requires topic in todo && todo <= db.Keys && Loaded(db - todo, t)
    ensures Loaded(db - (todo - {topic}), Put(t, Skipped(Split(topic)), Some(db[topic].data)))
  {
    var at, before, after := Skipped(Split(topic)), db - todo, db - (todo - {topic});
    var next := Put(t, at, Some(db[topic].data));
    forall s | s in after
      ensures SlotAt(next, Skipped(Split(s))).Some?
    {
      PutSlot(t, at, Some(db[topic].data), Skipped(Split(s)));
    }
    forall path: Path | SlotAt(next, path).Some?
      ensures exists s :: Loads(after, s, path) && SlotAt(next, path) == Some(Some(after[s].data))
    {
      PutSlot(t, at, Some(db[topic].data), path);
      if path == at {
        assert Loads(after, topic, path);
      } else {
        var s :| Loads(before, s, path) && SlotAt(t, path) == Some(Some(before[s].data));
        assert Loads(after, s, path);
      }
    }
  }

  /** The tree loaded from a table holds exactly its data if and only if no stored topic has an empty node. */
  lemma LoadedExact(db: Table, t: Trie<Payload>)
    requires Loaded(db, t)
    ensures Restorable(db) <==> Mirrors(db, t)
  {
    hide Split, Join, Skipped;
    if Restorable(db) {
      forall topic: Path | IsTopic(topic)
        ensures MirrorsAt(db, t, topic)
      {
        SplitJoin(topic);
        if Join(topic) in db {
          SkippedNone(topic);
        }
        if SlotAt(t, topic).Some? {
          var s :| Loads(db, s, topic) && SlotAt(t, topic) == Some(Some(db[s].data));
          SkippedNone(Split(s));
          JoinSplit(s);
        }
      }
      MirrorsEach(db, t);
    } else {
      var s :| s in db && !NonEmptyNodes(Split(s));
      JoinSplit(s);
      if Mirrors(db, t) {
        assert At(db, Join(Split(s))).Some?;
        var other :| Loads(db, other, Split(s));
        SkippedNames(Split(other));
      }
    }
  }

  /** A stored topic with an empty node, and where a restart moves it. */
  lemma EmptyNodeMoves(record: Record, t: Trie<Payload>)
    requires Loaded(map["a//b" := record], t)
    ensures IsTopic(["a", "", "b"]) && Join(["a", "", "b"]) == "a//b"
    ensures SlotAt(t, ["a", "b"]) == Some(Some(record.data)) && SlotAt(t, ["a", "", "b"]) == None
  {
    hide Split, Join, Skipped, SlotAt, IsTopic;
    var topic := ["a", "", "b"];
    EmptyNodeJoined();
    SplitJoin(topic);
    EmptyNodeSkipped();
    assert topic != ["a", "b"];
  }

  lemma EmptyNodeJoined()
    ensures IsTopic(["a", "", "b"]) && Join(["a", "", "b"]) == "a//b"
  {
    var topic := ["a", "", "b"];
    assert "a"[0] != SEPARATOR && "b"[0] != SEPARATOR;
    assert topic[1..] == ["", "b"] && topic[1..][1..] == ["b"];
    assert Join(["b"]) == "b" && Join(["", "b"]) == "" + [SEPARATOR] + "b" == "/b";
  }

  lemma EmptyNodeSkipped()
    ensures Skipped(["a", "", "b"]) == ["a", "b"]
  {
    var topic := ["a", "", "b"];
    assert topic[..2] == ["a", ""] && topic[..2][..1] == ["a"] && topic[..2][..1][..0] == [];
    assert Skipped(["a"]) == [] + ["a"] == ["a"] && Skipped(["a", ""]) == ["a"] + [] == ["a"];
    assert Skipped(topic) == ["a"] + ["b"] == ["a", "b"];
  }

  /** Two trees hold the same data. */
  ghost predicate SameData(a: Trie<Payload>, b: Trie<Payload>) {
    forall path: Path :: path != [] ==> SlotAt(a, path).GetOr(None) == SlotAt(b, path).GetOr(None)
  }

  /**
   Restart transparency: whatever tree and table a process began with, if the table holds the data of the tree
   and of the tree preloaded from it, the two hold the same data at every path.
   */
  lemma RestartTransparent(db: Table, before: Trie<Payload>, after: Trie<Payload>)
    requires Mirrors(db, before) && Mirrors(db, after) && NodesOk(before) && NodesOk(after)
    ensures SameData(before, after)
  {
    forall path: Path | path != []
      ensures SlotAt(before, path).GetOr(None) == SlotAt(after, path).GetOr(None)
    {
      assert IsTopic(path) ==> At(db, Join(path)).Some? || SlotAt(before, path).GetOr(None) == None;
      if !IsTopic(path) {
        if SlotAt(before, path).Some? {
          SlotPath(before, path);
          PathNodes(before, path);
        }
        if SlotAt(after, path).Some? {
          SlotPath(after, path);
          PathNodes(after, path);
        }
      }
    }
  }

  lemma SameDataMirrors(db: Table, a: Trie<Payload>, b: Trie<Payload>)
    requires SameData(a, b)
    ensures Mirrors(db, a) <==> Mirrors(db, b)
  {
  }

  /** Trees with the same data give snapshots that read the same. */
  lemma RestartSnapshots(before: Trie<Payload>, after: Trie<Payload>, filter: Path, a: Item, b: Item, wild: Path)
    requires SameData(before, after) && filter != [] && |wild| == Wilds(filter)
    requires IsSnapshot(before, filter, a) && IsSnapshot(after, filter, b)
    ensures ValueAt(a, wild) == ValueAt(b, wild)
  {
    SnapshotAgrees(before, filter, a);
    SnapshotAgrees(after, filter, b);
    assert Fill(filter, wild) != [];
  }

  lemma {:induction false} RunNodesOk(start: State, steps: seq<Step>, s: State)
    requires Reachable(start, steps, s) && NodesOk(start.tree)
    ensures NodesOk(s.tree)
    decreases |steps|
  {
    hide NodesOk, RetainAll, Batched;
    if steps != [] {
      var init, last := steps[..|steps| - 1], steps[|steps| - 1];
      var before :| Reachable(start, init, before) && Persistence.Enabled(before, last) && s == Persistence.Next(before, last);
      RunNodesOk(start, init, before);
      if last.Retain? {
        RetainNodesOk(before.tree, last.rows);
      }
    }
  }

  /**
   A restart keeps the data: each stored record is the tree's data at its topic without the empty nodes, and no topic with
   data has an empty node.
   */
  ghost predicate Restores(db: Table, t: Trie<Payload>) {
    && (forall s :: s in db && Skipped(Split(s)) != [] ==> SlotAt(t, Skipped(Split(s))) == Some(Some(db[s].data)))
    && (forall path: Path :: path != [] && SlotAt(t, path).GetOr(None).Some? ==> NonEmptyNodes(path))
  }

  /** Preload takes the stored topics in any order: each of them can be the last. */
  lemma {:induction false} LoadedLast(db: Table, last: string) returns (t: Trie<Payload>)
    requires last in db
    ensures Loaded(db, t) && SlotAt(t, Skipped(Split(last))) == Some(Some(db[last].data))
    decreases |db|, 0
  {
    hide Loaded, Skipped, Split, SlotAt;
    var before := db - {last};
    t := LoadedSome(before);
    LoadedStep(db, {last}, last, t);
    assert db - ({last} - {last}) == db;
    PutSlot(t, Skipped(Split(last)), Some(db[last].data), Skipped(Split(last)));
    t := Put(t, Skipped(Split(last)), Some(db[last].data));
  }

  lemma {:induction false} LoadedSome(db: Table) returns (t: Trie<Payload>)
    ensures Loaded(db, t)
    decreases |db|, 1
  {
    hide Loaded;
    t := Empty();
    if db == map[] {
      NothingLoaded(db);
    } else {
      var last :| last in db;
      t := LoadedLast(db, last);
    }
  }

  /** If every tree that can be loaded has the tree's data, the condition holds. */
  lemma RestoresIf(db: Table, t: Trie<Payload>)
    requires forall after :: Loaded(db, after) ==> SameData(t, after)
    ensures Restores(db, t)
  {
    hide Split, Skipped;
    forall s | s in db && Skipped(Split(s)) != []
      ensures SlotAt(t, Skipped(Split(s))) == Some(Some(db[s].data))
    {
      var after := LoadedLast(db, s);
      assert SameData(t, after);
    }
    var after := LoadedSome(db);
    assert SameData(t, after);
    forall path: Path | path != [] && SlotAt(t, path).GetOr(None).Some?
      ensures NonEmptyNodes(path)
    {
      var s :| Loads(db, s, path);
      SkippedNames(Split(s));
    }
  }

  /**
   A restart at the end of any run of the worker, from any table that held the tree's data when the process began: every
   tree that preload can make of the table holds the tree's data if and only if the table restores it.
   */
  lemma RestartExact(start: State, steps: seq<Step>, s: State)
    requires Persistence.Fresh(start) && Mirrors(start.db, start.tree) && NodesOk(start.tree) && Reachable(start, steps, s)
    requires s.pending == [] && s.running == []
    ensures (forall after :: Loaded(s.db, after) ==> SameData(s.tree, after)) <==> Restores(s.db, s.tree)
  {
    hide Mirrors, Reachable, Restores, Loaded, SameData, NodesOk;
    RunNodesOk(start, steps, s);
    if Restores(s.db, s.tree) {
      forall after | Loaded(s.db, after)
        ensures SameData(s.tree, after)
      {
        RestartKeeps(start, steps, s, after);
      }
    } else if forall after :: Loaded(s.db, after) ==> SameData(s.tree, after) {
      RestoresIf(s.db, s.tree);
    }
  }

  lemma RestartKeeps(start: State, steps: seq<Step>, s: State, after: Trie<Payload>)
    requires Persistence.Fresh(start) && Mirrors(start.db, start.tree) && Reachable(start, steps, s) && NodesOk(s.tree)
    requires s.pending == [] && s.running == [] && Restores(s.db, s.tree) && Loaded(s.db, after)
    ensures SameData(s.tree, after)
  {
    hide Mirrors, Reachable, Split, Join, Skipped, SlotAt, NodesOk, Persistence.Fresh;
    forall path: Path | path != []
      ensures SlotAt(s.tree, path).GetOr(None) == SlotAt(after, path).GetOr(None)
    {
      if SlotAt(after, path).Some? {
        var str :| Loads(s.db, str, path) && SlotAt(after, path) == Some(Some(s.db[str].data));
      } else if SlotAt(s.tree, path).GetOr(None).Some? {
        SlotTopic(s.tree, path);
        DataStored(start, steps, s, path);
        SplitJoin(path);
        SkippedNone(path);
      }
    }
  }

  lemma SlotTopic(t: Trie<Payload>, path: Path)
    requires NodesOk(t) && path != [] && SlotAt(t, path).Some?
    ensures IsTopic(path)
  {
    SlotPath(t, path);
    PathNodes(t, path);
  }

  /** The same, by the two ways in which it fails: a topic that has come back, and a stored topic with an empty node. */
  lemma RestartCauses(start: State, steps: seq<Step>, s: State, after: Trie<Payload>)
    requires Persistence.Fresh(start) && Mirrors(start.db, start.tree) && NodesOk(start.tree) && Reachable(start, steps, s)
    requires s.pending == [] && s.running == [] && Loaded(s.db, after) && NodesOk(after)
    ensures Restorable(s.db) ==> Mirrors(s.db, after) && (SameData(s.tree, after) <==> NoneReturned(s.batches))
    ensures NoneReturned(s.batches) ==> (SameData(s.tree, after) <==> Restorable(s.db))
  {
    hide Mirrors, Restorable, NoneReturned, Loaded, SameData, NodesOk, Reachable;
    LoadedExact(s.db, after);
    QuiescentTableExact(start, steps, s);
    RunNodesOk(start, steps, s);
    if Mirrors(s.db, s.tree) && Mirrors(s.db, after) {
      RestartTransparent(s.db, s.tree, after);
    }
    if SameData(s.tree, after) {
      SameDataMirrors(s.db, s.tree, after);
    }
  }

  /** The two messages of DeletedMessageReturns, and the tree a restart makes of the table they leave. */
  lemma DeletedMessageRestored(data: bytes, t: Trie<Payload>, after: Trie<Payload>)
    requires Loaded(map["a" := Record(data, 0)], after)
    ensures PlainRows(t, IncomingMessage(["a"], 0, true, false, Some(data), Nothing)) == Ok([Row(["a"], Some(data), 0)])
    ensures PlainRows(t, IncomingMessage(["a"], 0, true, false, None, Nothing)) == Ok([Row(["a"], None, 0)])
    ensures SlotAt(after, ["a"]) == Some(Some(data))
  {
    hide Expand, RowsFor, Split, Join, Skipped, SlotAt;
    StaticExpand(t, ["a"]);
    RowsForOne([], ["a"], Some(data), 0);
    RowsForOne([], ["a"], None, 0);
    assert [] + ["a"] == ["a"];
    RowsOfA([]);
    SplitJoin(["a"]);
    SkippedNone(["a"]);
  }

  // ---------------------------------------------------------------- the worker

  class TreeWorker {
    var db: Table

    constructor (db: Table)
      ensures this.db == db
    {
      this.db := db;
    }

    /** Deletes first, then upserts in order. */
    method RunTasks(messages: seq<Row>)
      requires TopicsOk(messages)
      modifies this
      ensures db == Batched(old(db), messages)
    {
      var deleteList: seq<string> := [];
      var createList: seq<Entry> := [];
      for i := 0 to |messages|
        invariant TopicsOk(messages[..i])
        invariant createList == Creates(messages[..i])
        invariant forall s :: s in deleteList <==> s in Deletes(messages[..i])
        invariant db == old(db)
      {
        var message := messages[i];
        assert message in messages && messages[..i + 1][..i] == messages[..i];
        assert messages[..i + 1] == messages[..i] + [message];
        var topic := Join(message.topic);
        if message.data.None? {
          deleteList := deleteList + [topic];
        } else {
          createList := createList + [Entry(topic, Record(message.data.value, message.qos))];
        }
      }
      assert messages[..|messages|] == messages;
      DeleteTopics(deleteList);
      assert db == old(db) - Deletes(messages);
      BulkCreate(createList);
    }

    /** objects.filter(topic__in=...).delete(). */
    method DeleteTopics(topics: seq<string>)
      modifies this
      ensures db == old(db) - (set s | s in topics)
    {
      db := db - (set s | s in topics);
    }

    /** bulk_create with update_conflicts on the topic. */
    method BulkCreate(entries: seq<Entry>)
      modifies this
      ensures db == Upserted(old(db), entries)
    {
      for i := 0 to |entries|
        invariant db == Upserted(old(db), entries[..i])
      {
        assert entries[..i + 1][..i] == entries[..i];
        db := db[entries[i].topic := entries[i].record];
      }
      assert entries[..|entries|] == entries;
    }
  }

  /** One turn of the worker's loop: copy the shared list, pop it empty, run what was copied. */
  method ConsumeTasks(manager: TreeManager, worker: TreeWorker) returns (consumed: seq<Row>)
    requires TopicsOk(manager.tasks)
    modifies manager`tasks, worker
    ensures consumed == old(manager.tasks) && manager.tasks == []
    ensures worker.db == Batched(old(worker.db), consumed)
    ensures forall s: State :: old(manager.In(s)) && s.running == [] && s.db == old(worker.db) ==>
      var taken := Persistence.Next(s, Consume);
      if consumed == [] then manager.In(taken) && taken.db == worker.db
      else Persistence.Enabled(taken, Finish) && manager.In(Persistence.Next(taken, Finish)) &&
           Persistence.Next(taken, Finish).db == worker.db
  {
    consumed := manager.tasks;
    while manager.tasks != []
      invariant worker.db == old(worker.db)
      decreases |manager.tasks|
    {
      manager.tasks := manager.tasks[..|manager.tasks| - 1];
    }
    if consumed != [] {
      worker.RunTasks(consumed);
    } else {
      assert worker.db - {} == worker.db;
    }
  }
}

/** protocols/create_messages_for_subscriptions.py: one batch of rows multiplexed over the subscription trie. */
module Multiplexer {
  import opened Wrappers
  import opened Topics
  import opened Tries
  import opened Rows
  import opened Items
  import opened RecursiveDefaultDicts

  /** Client id to qos. */
  type Clients = map<string, nat>

  datatype Message = Message(clients: Clients, filter: Path, data: Item)

  /** The rows whose topic ends at a depth. */
  function LeafRows(rows: seq<Row>, depth: nat): seq<Row> {
    if rows == [] then []
    else
      var last := rows[|rows| - 1];
      LeafRows(rows[..|rows| - 1], depth) + if |last.topic| == depth then [last] else []
  }

  /** The rows with a given node at a depth. */
  function RowsAt(rows: seq<Row>, depth: nat, node: string): seq<Row> {
    if rows == [] then []
    else
      var last := rows[|rows| - 1];
      RowsAt(rows[..|rows| - 1], depth, node) + if depth < |last.topic| && last.topic[depth] == node then [last] else []
  }

  /** Every row long enough to tell matches the filter walked so far. */
  predicate Reach(rows: seq<Row>, base: Path) {
    forall row :: row in rows && |row.topic| >= |base| ==> Matches(base, row.topic[..|base|])
  }

  /** The key under which the walk meets a filter that extends base. */
  function KeyOf(base: Path, filter: Path): string
    requires |base| <= |filter|
  {
    if |base| == |filter| then LEAF_KEY else filter[|base|]
  }

  ghost predicate Correct(m: Message, t: Trie<Clients>, rows: seq<Row>, base: Path) {
    && base <= m.filter
    && SlotAt(t, m.filter[|base|..]) == Some(m.clients)
    && Matching(rows, m.filter) != []
    && m.data == MessageFor(rows, m.filter)
  }

  ghost predicate Covered(messages: seq<Message>, filter: Path) {
    exists i :: 0 <= i < |messages| && messages[i].filter == filter
  }

  /** Each message is right, and its filter lies under a key already seen. */
  ghost predicate Sound(messages: seq<Message>, t: Trie<Clients>, rows: seq<Row>, base: Path, seen: seq<string>) {
    forall i :: 0 <= i < |messages| ==>
      Correct(messages[i], t, rows, base) && KeyOf(base, messages[i].filter) in seen
  }

  ghost predicate Unrepeated(messages: seq<Message>) {
    forall i, j :: 0 <= i < j < |messages| ==> messages[i].filter != messages[j].filter
  }

  /** Every subscribed filter under a key already seen that matches some row has its message. */
  ghost predicate Complete(messages: seq<Message>, t: Trie<Clients>, rows: seq<Row>, base: Path, seen: seq<string>) {
    forall path: Path :: SlotAt(t, path).Some? && KeyOf(base, base + path) in seen && Matching(rows, base + path) != [] ==>
      Covered(messages, base + path)
  }

  /** All-pairs matching below base, for the keys seen so far. */
  ghost predicate Delivers(messages: seq<Message>, t: Trie<Clients>, rows: seq<Row>, base: Path, seen: seq<string>) {
    Sound(messages, t, rows, base, seen) && Unrepeated(messages) && Complete(messages, t, rows, base, seen)
  }

  // ---------------------------------------------------------------- the grouping of rows

  lemma {:induction false} LeafRowsMatch(rows: seq<Row>, base: Path)
    requires Reach(rows, base)
    ensures LeafRows(rows, |base|) == Matching(rows, base)
  {
    if rows != [] {
      var last := rows[|rows| - 1];
      LeafRowsMatch(rows[..|rows| - 1], base);
      assert last in rows && (|last.topic| == |base| ==> last.topic[..|base|] == last.topic);
    }
  }

  lemma {:induction false} RowsAtReach(rows: seq<Row>, base: Path, node: string)
    requires Reach(rows, base)
    ensures Reach(RowsAt(rows, |base|, node), base + [node])
    ensures forall row :: row in RowsAt(rows, |base|, node) ==> row in rows
    ensures TopicsOk(rows) ==> TopicsOk(RowsAt(rows, |base|, node))
  {
    if rows != [] {
      var last := rows[|rows| - 1];
      RowsAtReach(rows[..|rows| - 1], base, node);
      assert last in rows;
      if |last.topic| > |base| && last.topic[|base|] == node {
        assert last.topic[..|base| + 1] == last.topic[..|base|] + [node];
      }
    }
  }

  lemma {:induction false} RowsAtMatch(rows: seq<Row>, depth: nat, node: string, filter: Path)
    requires depth < |filter| && filter[depth] == node != MANY_CARD
    ensures Matching(RowsAt(rows, depth, node), filter) == Matching(rows, filter)
  {
    if rows != [] {
      var init, last := rows[..|rows| - 1], rows[|rows| - 1];
      RowsAtMatch(init, depth, node, filter);
      var some := RowsAt(init, depth, node);
      if depth < |last.topic| && last.topic[depth] == node {
        assert (some + [last])[..|some|] == some;
      } else {
        assert some + [] == some;
        assert !Matches(filter, last.topic);
      }
    }
  }

  lemma AnyReach(rows: seq<Row>, base: Path)
    requires Reach(rows, base)
    ensures Reach(rows, base + [MANY_CARD])
  {
    forall row | row in rows && |row.topic| >= |base| + 1
      ensures Matches(base + [MANY_CARD], row.topic[..|base| + 1])
    {
      assert row.topic[..|base| + 1] == row.topic[..|base|] + [row.topic[|base|]];
    }
  }

  // ---------------------------------------------------------------- the walk over the trie

  lemma CoveredMore(messages: seq<Message>, more: seq<Message>, filter: Path)
    requires Covered(messages, filter) || Covered(more, filter)
    ensures Covered(messages + more, filter)
  {
    var all := messages + more;
    if Covered(messages, filter) {
      var i :| 0 <= i < |messages| && messages[i].filter == filter;
      assert all[i].filter == filter;
    } else {
      var i :| 0 <= i < |more| && more[i].filter == filter;
      assert all[|messages| + i].filter == filter;
    }
  }

  /** The messages found under one more key join the rest. */
  lemma DeliversKey(messages: seq<Message>, more: seq<Message>, t: Trie<Clients>, rows: seq<Row>, base: Path,
                    seen: seq<string>, key: string)
    requires Delivers(messages, t, rows, base, seen) && key !in seen
    requires Delivers(more, t, rows, base, [key])
    ensures Delivers(messages + more, t, rows, base, seen + [key])
  {
    var all := messages + more;
    forall path: Path | SlotAt(t, path).Some? && KeyOf(base, base + path) in seen + [key] && Matching(rows, base + path) != []
      ensures Covered(all, base + path)
    {
      CoveredMore(messages, more, base + path);
    }
    forall i, j | 0 <= i < j < |all|
      ensures all[i].filter != all[j].filter
    {
      if i < |messages| <= j {
        assert KeyOf(base, messages[i].filter) in seen && KeyOf(base, more[j - |messages|].filter) in [key];
      }
    }
  }

  lemma DeliversLeaf(t: Trie<Clients>, rows: seq<Row>, base: Path, clients: Clients)
    requires t.slot == Some(clients) && LEAF_KEY !in t.kids && Matching(rows, base) != []
    ensures Delivers([Message(clients, base, MessageFor(rows, base))], t, rows, base, [LEAF_KEY])
  {
    var only := [Message(clients, base, MessageFor(rows, base))];
    assert base[|base|..] == [];
    forall path: Path | SlotAt(t, path).Some? && KeyOf(base, base + path) in [LEAF_KEY] && Matching(rows, base + path) != []
      ensures Covered(only, base + path)
    {
      assert path == [] && base + path == base;
      assert only[0].filter == base;
    }
  }

  lemma DeliversStart(t: Trie<Clients>, rows: seq<Row>, base: Path)
    ensures Delivers([], t, rows, base, [])
  {
  }

  lemma {:induction false} NoLeafRows(rows: seq<Row>, depth: nat)
    requires TopicsOk(rows)
    ensures RowsAt(rows, depth, LEAF_KEY) == []
  {
    if rows != [] {
      var last := rows[|rows| - 1];
      assert last in rows;
      NoLeafKey(last.topic);
      NoLeafRows(rows[..|rows| - 1], depth);
    }
  }

  /** A key no row is passed to has no message due. */
  lemma DeliversNothing(t: Trie<Clients>, rows: seq<Row>, base: Path, key: string)
    requires LEAF_KEY !in t.kids
    requires if key == LEAF_KEY then Matching(rows, base) == [] else
               (if key == MANY_CARD then rows else RowsAt(rows, |base|, key)) == []
    ensures Delivers([], t, rows, base, [key])
  {
    forall path: Path | SlotAt(t, path).Some? && KeyOf(base, base + path) in [key]
      ensures Matching(rows, base + path) == []
    {
      if path == [] {
        assert base + path == base;
      } else if key != MANY_CARD {
        RowsAtMatch(rows, |base|, key, base + path);
      }
    }
  }

  /** What the recursive call returns for one branch, seen from the parent. */
  lemma DeliversBranch(sub: seq<Message>, t: Trie<Clients>, rows: seq<Row>, newRows: seq<Row>, base: Path, key: string)
    requires key in t.kids && LEAF_KEY !in t.kids
    requires Delivers(sub, t.kids[key], newRows, base + [key], t.kids[key].keys) && WellFormed(t.kids[key])
    requires newRows == if key == MANY_CARD then rows else RowsAt(rows, |base|, key)
    ensures Delivers(sub, t, rows, base, [key])
  {
    forall path: Path | path != [] && path[0] == key
      ensures base + path == base + [key] + path[1..] && Matching(newRows, base + path) == Matching(rows, base + path)
    {
      assert path == [key] + path[1..];
      if key != MANY_CARD {
        RowsAtMatch(rows, |base|, key, base + path);
      }
    }
    forall i | 0 <= i < |sub|
      ensures Correct(sub[i], t, rows, base) && KeyOf(base, sub[i].filter) in [key]
    {
      var filter := sub[i].filter;
      assert Correct(sub[i], t.kids[key], newRows, base + [key]);
      var path := filter[|base|..];
      assert filter == base + path && path[0] == key && path[1..] == filter[|base| + 1..];
    }
    forall path: Path | SlotAt(t, path).Some? && KeyOf(base, base + path) in [key] && Matching(rows, base + path) != []
      ensures Covered(sub, base + path)
    {
      assert path != [] && path[0] == key;
      KeyInKeys(t.kids[key], base + [key], path[1..]);
    }
  }

  lemma KeyInKeys(t: Trie<Clients>, base: Path, path: Path)
    requires WellFormed(t) && SlotAt(t, path).Some?
    ensures KeyOf(base, base + path) in t.keys
  {
  }

  /** The climb of build_message_data for one row: the keys it follows, the last one being ref_key. */
  method WalkRefs(base: Path, topic: Path) returns (refs: Path)
    requires |base| == |topic|
    ensures refs == Project(base, topic)
  {
    refs := [];
    for j := 0 to |base|
      invariant refs + Project(base[j..], topic[j..]) == Project(base, topic)
    {
      var rest := Project(base[j + 1..], topic[j + 1..]);
      assert base[j..][1..] == base[j + 1..] && topic[j..][1..] == topic[j + 1..];
      assert refs + ([topic[j]] + rest) == (refs + [topic[j]]) + rest;
      if !IsNodeStatic(base[j]) {
        refs := refs + [topic[j]];
      }
    }
  }

  method BuildMessageData(leafRows: seq<Row>, base: Path, wildcards: bool) returns (data: Item)
    requires leafRows != [] && AllMatch(leafRows, base) && wildcards == (MANY_CARD in base)
    ensures data == MessageData(base, leafRows)
  {
    if !wildcards {
      return FromPayload(leafRows[|leafRows| - 1].data);
    }
    data := Obj(map[]);
    for i := 0 to |leafRows|
      invariant data == BuildItem(base, leafRows[..i])
    {
      var row := leafRows[i];
      assert leafRows[..i + 1][..i] == leafRows[..i] && row in leafRows;
      var refs := WalkRefs(base, row.topic);
      data := SetPath(data, refs, FromPayload(row.data));
    }
    assert leafRows[..|leafRows|] == leafRows;
  }

  lemma NoRows(depth: nat)
    ensures LeafRows([], depth) == [] && forall node :: RowsAt([], depth, node) == []
  {
  }

  lemma OneMoreRow(rows: seq<Row>, i: nat, depth: nat)
    requires i < |rows|
    ensures LeafRows(rows[..i + 1], depth) == LeafRows(rows[..i], depth) + if |rows[i].topic| == depth then [rows[i]] else []
    ensures forall node :: RowsAt(rows[..i + 1], depth, node) ==
                           RowsAt(rows[..i], depth, node) +
                           if depth < |rows[i].topic| && rows[i].topic[depth] == node then [rows[i]] else []
  {
    assert rows[..i + 1][..i] == rows[..i];
  }

  method GroupRows(rows: seq<Row>, depth: nat) returns (leafRows: seq<Row>, rowsByNode: map<string, seq<Row>>)
    ensures leafRows == LeafRows(rows, depth)
    ensures forall node :: RowsAt(rows, depth, node) == if node in rowsByNode then rowsByNode[node] else []
  {
    hide RowsAt, LeafRows;
    leafRows, rowsByNode := [], map[];
    NoRows(depth);
    for i := 0 to |rows|
      invariant leafRows == LeafRows(rows[..i], depth)
      invariant forall node :: RowsAt(rows[..i], depth, node) == if node in rowsByNode then rowsByNode[node] else []
    {
      OneMoreRow(rows, i, depth);
      var topic := rows[i].topic;
      if depth < |topic| {
        var node := topic[depth];
        rowsByNode := rowsByNode[node := (if node in rowsByNode then rowsByNode[node] else []) + [rows[i]]];
      } else if depth == |topic| {
        leafRows := leafRows + [rows[i]];
      }
    }
    assert rows[..|rows|] == rows;
  }

  method CreateMessages(subscriptions: RecursiveDefaultDict<Clients>, rows: seq<Row>, base: Path, depth: nat, wildcards: bool)
    returns (messages: seq<Message>)
    requires subscriptions.Valid() && TopicsOk(rows) && Reach(rows, base)
    requires depth == |base| && wildcards == (MANY_CARD in base)
    ensures Delivers(messages, subscriptions.Value, rows, base, subscriptions.keys)
    decreases subscriptions.Repr, 1
  {
    hide Delivers, RecursiveDefaultDict.Linked;
    var leafRows, rowsByNode := GroupRows(rows, depth);
    messages := [];
    var keys := subscriptions.keys;
    DeliversStart(subscriptions.Value, rows, base);
    for i := 0 to |keys|
      invariant Delivers(messages, subscriptions.Value, rows, base, keys[..i])
    {
      var more := MessagesUnder(subscriptions, keys[i], rows, leafRows, rowsByNode, base, depth, wildcards);
      subscriptions.DistinctKeys(i);
      DeliversKey(messages, more, subscriptions.Value, rows, base, keys[..i], keys[i]);
      messages := messages + more;
      assert keys[..i + 1] == keys[..i] + [keys[i]];
    }
    assert keys[..|keys|] == keys;
  }

  /** The body of the loop over subscriptions.items(). */
  method MessagesUnder(subscriptions: RecursiveDefaultDict<Clients>, filterNode: string, rows: seq<Row>, leafRows: seq<Row>,
                       rowsByNode: map<string, seq<Row>>, base: Path, depth: nat, wildcards: bool)
    returns (messages: seq<Message>)
    requires subscriptions.Valid() && TopicsOk(rows) && Reach(rows, base) && filterNode in subscriptions.keys
    requires depth == |base| && wildcards == (MANY_CARD in base)
    requires leafRows == LeafRows(rows, depth)
    requires forall node :: RowsAt(rows, depth, node) == if node in rowsByNode then rowsByNode[node] else []
    ensures Delivers(messages, subscriptions.Value, rows, base, [filterNode])
    decreases subscriptions.Repr, 0
  {
    hide Delivers, RecursiveDefaultDict.Valid, RecursiveDefaultDict.Linked, Matching, LeafRows, RowsAt, Reach, TopicsOk, AllMatch,
      WellFormed, MessageData;
    subscriptions.KeyKinds();
    LeafRowsMatch(rows, base);
    messages := [];
    if leafRows != [] && filterNode == LEAF_KEY {
      MatchingIn(rows, base);
      assert MessageFor(rows, base) == MessageData(base, leafRows);
      var data := BuildMessageData(leafRows, base, wildcards);
      messages := [Message(subscriptions.slot.value, base, data)];
      DeliversLeaf(subscriptions.Value, rows, base, subscriptions.slot.value);
    } else {
      var newRows, newWildcards := rows, true;
      if filterNode != MANY_CARD {
        newRows, newWildcards := if filterNode in rowsByNode then rowsByNode[filterNode] else [], wildcards;
        RowsAtReach(rows, base, filterNode);
      } else {
        AnyReach(rows, base);
      }
      NoLeafRows(rows, depth);
      if newRows != [] {
        messages := CreateMessages(subscriptions.kids[filterNode], newRows, base + [filterNode], depth + 1, newWildcards);
        subscriptions.kids[filterNode].KeyKinds();
        subscriptions.kids[filterNode].ValueWellFormed();
        DeliversBranch(messages, subscriptions.Value, rows, newRows, base, filterNode);
      } else {
        DeliversNothing(subscriptions.Value, rows, base, filterNode);
      }
    }
  }

  /**
   The multiplexer against all-pairs matching: exactly one message for each subscribed filter that
   matches some row, built from precisely the matching rows in batch order, and none besides.
   */
  ghost predicate AllPairs(messages: seq<Message>, t: Trie<Clients>, rows: seq<Row>) {
    && (forall i :: 0 <= i < |messages| ==>
          && SlotAt(t, messages[i].filter) == Some(messages[i].clients)
          && Matching(rows, messages[i].filter) != []
          && messages[i].data == MessageFor(rows, messages[i].filter))
    && Unrepeated(messages)
    && (forall filter: Path :: SlotAt(t, filter).Some? && Matching(rows, filter) != [] ==> Covered(messages, filter))
  }

  method CreateMessagesForSubscriptions(subscriptions: RecursiveDefaultDict<Clients>, rows: seq<Row>)
    returns (messages: seq<Message>)
    requires subscriptions.Valid() && TopicsOk(rows)
    ensures AllPairs(messages, subscriptions.Value, rows)
  {
    messages := CreateMessages(subscriptions, rows, [], 0, false);
    subscriptions.KeyKinds();
    subscriptions.ValueWellFormed();
    DeliversAllPairs(messages, subscriptions.Value, rows);
  }

  lemma DeliversAllPairs(messages: seq<Message>, t: Trie<Clients>, rows: seq<Row>)
    requires WellFormed(t) && Delivers(messages, t, rows, [], t.keys)
    ensures AllPairs(messages, t, rows)
  {
    forall i | 0 <= i < |messages|
      ensures SlotAt(t, messages[i].filter) == Some(messages[i].clients) && Matching(rows, messages[i].filter) != []
      ensures messages[i].data == MessageFor(rows, messages[i].filter)
    {
      assert Correct(messages[i], t, rows, []);
      assert messages[i].filter[0..] == messages[i].filter;
    }
    forall filter: Path | SlotAt(t, filter).Some? && Matching(rows, filter) != []
      ensures Covered(messages, filter)
    {
      KeyInKeys(t, [], filter);
      assert [] + filter == filter;
    }
  }
}

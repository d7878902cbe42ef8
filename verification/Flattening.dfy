/** protocols/flatten_message.py: a JSON tree spread over a topic with wildcards, with replace-mode deletions. */
module Flattening {
  import opened Wrappers
  import opened Topics
  import opened Tries
  import opened Rows
  import opened Items
  import opened RecursiveDefaultDicts

  /** The data has an object wherever the topic has a "+", and strings at the end. */
  ghost predicate Fits(topic: Path, data: Item)
    requires topic != []
    decreases topic
  {
    var node, nextTopic := topic[0], topic[1..];
    if node == EVERYTHING_CARD then false
    else if node == MANY_CARD then
      data.Obj? && forall key :: key in data.entries ==>
        if nextTopic == [] then data.entries[key].Text? else Fits(nextTopic, data.entries[key])
    else if nextTopic == [] then data.Text?
    else Fits(nextTopic, data)
  }

  /** How many nodes stand before the first "#". */
  function BeforeEverything(topic: Path): (n: nat)
    ensures n <= |topic|
  {
    if topic == [] || topic[0] == "#" then 0 else 1 + BeforeEverything(topic[1..])
  }

  /** What following keys finds has the shape the topic asks for: objects for its "+" nodes, then a string, and no "#". */
  ghost predicate ShapeAt(topic: Path, data: Item, wild: Path) {
    var n := BeforeEverything(topic);
    |wild| <= Wilds(topic[..n]) && ItemAt(data, wild).Some? ==>
      if |wild| < Wilds(topic[..n]) then ItemAt(data, wild).value.Obj? else n == |topic| && ItemAt(data, wild).value.Text?
  }

  /** The data fits a topic exactly when all that can be found in it has that shape. */
  lemma {:induction false} FitsExact(topic: Path, data: Item)
    requires topic != []
    ensures Fits(topic, data) <==> forall wild: Path :: ShapeAt(topic, data, wild)
    decreases topic
  {
    var none: Path := [];
    var n := BeforeEverything(topic);
    if topic[0] == "#" {
      assert topic[..n] == [] && !ShapeAt(topic, data, none);
    } else if |topic| == 1 {
      assert topic == [topic[0]];
      ShapeOne(topic[0], data);
    } else {
      assert topic[..n] == [topic[0]] + topic[1..][..n - 1];
      if topic[0] == MANY_CARD {
        ShapeMany(topic, data);
        if data.Obj? {
          forall key | key in data.entries
            ensures Fits(topic[1..], data.entries[key]) <==> forall wild: Path :: ShapeAt(topic[1..], data.entries[key], wild)
          {
            FitsExact(topic[1..], data.entries[key]);
          }
        }
      } else {
        FitsExact(topic[1..], data);
        assert forall wild: Path :: ShapeAt(topic, data, wild) <==> ShapeAt(topic[1..], data, wild);
      }
    }
  }

  lemma ShapeOne(node: string, data: Item)
    requires node != "#"
    ensures (forall wild: Path :: ShapeAt([node], data, wild)) <==> Fits([node], data)
  {
    var topic, none: Path := [node], [];
    assert topic[1..] == [] && BeforeEverything(topic[1..]) == 0 && BeforeEverything(topic) == 1 && topic[..1] == topic;
    assert topic[0] == node && Wilds(topic[1..]) == 0 && Wilds(topic) == if node == MANY_CARD then 1 else 0;
    assert Fits(topic, data) <==> if node == MANY_CARD then data.Obj? && forall key :: key in data.entries ==> data.entries[key].Text?
                                  else data.Text?;
    assert ShapeAt(topic, data, none) <==> if node == MANY_CARD then data.Obj? else data.Text?;
    if node == MANY_CARD && data.Obj? {
      forall key | key in data.entries
        ensures ShapeAt(topic, data, [key]) <==> data.entries[key].Text?
      {
        assert [key][0] == key && [key][1..] == [] && ItemAt(data.entries[key], []) == Some(data.entries[key]);
        assert ItemAt(data, [key]) == ItemAt(data.entries[key], [key][1..]);
      }
      forall wild: Path | Fits(topic, data)
        ensures ShapeAt(topic, data, wild)
      {
        if |wild| == 1 && wild[0] in data.entries {
          assert wild == [wild[0]] && ShapeAt(topic, data, [wild[0]]);
        }
      }
    }
  }

  /** The shape below a "+", for each key. */
  lemma ShapeMany(topic: Path, data: Item)
    requires |topic| > 1 && topic[0] == MANY_CARD
    ensures (forall wild: Path :: ShapeAt(topic, data, wild)) <==>
            data.Obj? && forall key, wild: Path :: key in data.entries ==> ShapeAt(topic[1..], data.entries[key], wild)
  {
    var none: Path := [];
    var n := BeforeEverything(topic);
    assert topic[..n] == [topic[0]] + topic[1..][..n - 1] && topic[..n][1..] == topic[1..][..n - 1];
    assert ShapeAt(topic, data, none) <==> data.Obj?;
    if data.Obj? {
      forall key, wild: Path | key in data.entries
        ensures ShapeAt(topic, data, [key] + wild) <==> ShapeAt(topic[1..], data.entries[key], wild)
      {
        assert ([key] + wild)[1..] == wild;
      }
      forall wild: Path | forall key, w: Path :: key in data.entries ==> ShapeAt(topic[1..], data.entries[key], w)
        ensures ShapeAt(topic, data, wild)
      {
        if wild != [] && wild[0] in data.entries {
          assert wild == [wild[0]] + wild[1..] && ShapeAt(topic[1..], data.entries[wild[0]], wild[1..]);
        }
      }
    }
  }

  /**
   The payload a grafted message gives a topic, if any: the string the data holds at the topic's
   wildcard values; in replace mode, a delete where the data reaches the topic's parent but not the
   topic, and the tree has a leaf there.
   */
  function Emitted(t: Trie<Payload>, topic: Path, data: Item, replace: bool, q: Path): Option<Payload>
    requires topic != []
  {
    if !Matches(topic, q) then None
    else
      var wild := Project(topic, q);
      var found := ItemAt(data, wild);
      if found.Some? then
        if found.value.Text? then Some(Some(found.value.data)) else None
      else if replace && topic[|topic| - 1] == MANY_CARD && wild != [] then
        var parent := ItemAt(data, wild[..|wild| - 1]);
        if parent.Some? && parent.value.Obj? && SlotAt(t, q).Some? then Some(None) else None
      else None
  }

  predicate DistinctTopics(rows: seq<Row>) {
    forall i, j :: 0 <= i < j < |rows| ==> rows[i].topic != rows[j].topic
  }

  ghost predicate HasTopic(rows: seq<Row>, topic: Path) {
    exists row :: row in rows && row.topic == topic
  }

  predicate StartsIn(q: Path, selected: set<string>) {
    q != [] && q[0] in selected
  }

  /** The rows are exactly what is emitted, each topic once, for the first nodes selected. */
  ghost predicate FlattenedFor(rows: seq<Row>, t: Trie<Payload>, topic: Path, data: Item, replace: bool,
                               qos: nat, base: Path, selected: set<string>)
    requires topic != []
  {
    && (forall row :: row in rows ==>
          && base < row.topic && row.topic[|base|] in selected && row.qos == qos
          && Emitted(t, topic, data, replace, row.topic[|base|..]) == Some(row.data))
    && (forall q: Path :: Emitted(t, topic, data, replace, q).Some? && StartsIn(q, selected) ==> HasTopic(rows, base + q))
    && DistinctTopics(rows)
  }

  ghost predicate Flattened(rows: seq<Row>, t: Trie<Payload>, topic: Path, data: Item, replace: bool, qos: nat, base: Path)
    requires topic != []
  {
    && (forall row :: row in rows ==>
          && base < row.topic && row.qos == qos
          && Emitted(t, topic, data, replace, row.topic[|base|..]) == Some(row.data))
    && (forall q: Path :: Emitted(t, topic, data, replace, q).Some? ==> HasTopic(rows, base + q))
    && DistinctTopics(rows)
  }

  // ---------------------------------------------------------------- one node at a time

  lemma ProjectStep(topic: Path, q: Path)
    requires topic != [] && |topic| == |q|
    ensures Project(topic, q) == (if IsNodeStatic(topic[0]) then [] else [q[0]]) + Project(topic[1..], q[1..])
    ensures Matches(topic, q) <==> (topic[0] == MANY_CARD || topic[0] == q[0]) && Matches(topic[1..], q[1..])
  {
    assert forall i :: 0 <= i < |topic| - 1 ==> topic[1..][i] == topic[i + 1] && q[1..][i] == q[i + 1];
    assert forall i :: 0 < i < |topic| ==> topic[i] == topic[1..][i - 1] && q[i] == q[1..][i - 1];
  }

  lemma EmittedBelow(t: Trie<Payload>, topic: Path, data: Item, replace: bool, q: Path)
    requires |topic| > 1 && topic[0] != EVERYTHING_CARD && q != []
    requires topic[0] == MANY_CARD ==> data.Obj?
    requires topic[|topic| - 1] == MANY_CARD ==> Wilds(topic[1..]) > 0
    ensures Emitted(t, topic, data, replace, q) ==
            if topic[0] == MANY_CARD then
              if q[0] in data.entries then Emitted(Child(t, q[0]), topic[1..], data.entries[q[0]], replace, q[1..]) else None
            else if topic[0] == q[0] then Emitted(Child(t, q[0]), topic[1..], data, replace, q[1..])
            else None
  {
    if |topic| == |q| {
      ProjectStep(topic, q);
      var wild, below := Project(topic, q), Project(topic[1..], q[1..]);
      ProjectLength(topic[1..], q[1..]);
      ProjectLength(topic, q);
      assert topic[1..][|topic| - 2] == topic[|topic| - 1];
      SlotEmpty(q[1..]);
      if topic[0] == MANY_CARD {
        assert wild == [q[0]] + below && wild[1..] == below;
        if below != [] {
          assert wild[..|wild| - 1] == [q[0]] + below[..|below| - 1];
          assert wild[..|wild| - 1][1..] == below[..|below| - 1];
        }
      } else {
        assert wild == below;
      }
    }
  }

  lemma SlotEmpty(q: Path)
    ensures SlotAt(Empty<Payload>(), q) == None
  {
  }

  lemma {:induction false} WildEnd(topic: Path)
    requires topic != [] && topic[|topic| - 1] == MANY_CARD
    ensures Wilds(topic) > 0
  {
    if |topic| > 1 {
      WildEnd(topic[1..]);
    }
  }

  /** The rows found below one key, seen from the node above. */
  lemma FlattenedBranch(sub: seq<Row>, t: Trie<Payload>, topic: Path, data: Item, below: Item, replace: bool, qos: nat,
                        base: Path, key: string)
    requires |topic| > 1 && topic[0] != EVERYTHING_CARD
    requires if topic[0] == MANY_CARD then data.Obj? && key in data.entries && below == data.entries[key]
             else key == topic[0] && below == data
    requires Flattened(sub, Child(t, key), topic[1..], below, replace, qos, base + [key])
    ensures FlattenedFor(sub, t, topic, data, replace, qos, base, {key})
  {
    if topic[|topic| - 1] == MANY_CARD {
      WildEnd(topic[1..]);
    }
    forall row | row in sub
      ensures base < row.topic && row.topic[|base|] in {key}
      ensures Emitted(t, topic, data, replace, row.topic[|base|..]) == Some(row.data)
    {
      var q := row.topic[|base|..];
      assert q[0] == key && q[1..] == row.topic[|base| + 1..];
      EmittedBelow(t, topic, data, replace, q);
      assert |base + [key]| == |base| + 1;
    }
    forall q: Path | Emitted(t, topic, data, replace, q).Some? && StartsIn(q, {key})
      ensures HasTopic(sub, base + q)
    {
      EmittedBelow(t, topic, data, replace, q);
      assert base + q == (base + [key]) + q[1..];
    }
  }

  lemma FlattenedJoin(a: seq<Row>, b: seq<Row>, t: Trie<Payload>, topic: Path, data: Item, replace: bool, qos: nat, base: Path,
                      selected: set<string>, key: string)
    requires topic != [] && key !in selected
    requires FlattenedFor(a, t, topic, data, replace, qos, base, selected)
    requires FlattenedFor(b, t, topic, data, replace, qos, base, {key})
    ensures FlattenedFor(a + b, t, topic, data, replace, qos, base, selected + {key})
  {
    forall q: Path | Emitted(t, topic, data, replace, q).Some? && StartsIn(q, selected + {key})
      ensures HasTopic(a + b, base + q)
    {
      if q[0] in selected {
        var row :| row in a && row.topic == base + q;
        assert row in a + b;
      } else {
        var row :| row in b && row.topic == base + q;
        assert row in a + b;
      }
    }
    forall i, j | 0 <= i < j < |a + b|
      ensures (a + b)[i].topic != (a + b)[j].topic
    {
      if i < |a| <= j {
        assert a[i] in a && b[j - |a|] in b;
      }
    }
  }

  lemma FlattenedStart(t: Trie<Payload>, topic: Path, data: Item, replace: bool, qos: nat, base: Path)
    requires topic != []
    ensures FlattenedFor([], t, topic, data, replace, qos, base, {})
  {
  }

  lemma FlattenedAll(rows: seq<Row>, t: Trie<Payload>, topic: Path, data: Item, replace: bool, qos: nat, base: Path, selected: set<string>)
    requires topic != [] && FlattenedFor(rows, t, topic, data, replace, qos, base, selected)
    requires forall q: Path :: Emitted(t, topic, data, replace, q).Some? ==> StartsIn(q, selected)
    ensures Flattened(rows, t, topic, data, replace, qos, base)
  {
  }

  /** The keys outside the data have nothing to emit unless the data is at its last "+". */
  lemma EmittedKey(t: Trie<Payload>, topic: Path, data: Item, replace: bool, q: Path)
    requires |topic| > 1 && topic[0] != EVERYTHING_CARD && (topic[0] == MANY_CARD ==> data.Obj?)
    requires Emitted(t, topic, data, replace, q).Some?
    ensures q != [] && if topic[0] == MANY_CARD then q[0] in data.entries else q[0] == topic[0]
  {
    if topic[|topic| - 1] == MANY_CARD {
      WildEnd(topic[1..]);
    }
    EmittedBelow(t, topic, data, replace, q);
  }

  lemma EmittedLast(t: Trie<Payload>, node: string, data: Item, replace: bool, q: Path)
    requires node != EVERYTHING_CARD && (node == MANY_CARD ==> data.Obj?)
    ensures Emitted(t, [node], data, replace, q) ==
            if |q| != 1 then None
            else if node != MANY_CARD then
              if q[0] == node && data.Text? then Some(Some(data.data)) else None
            else if q[0] in data.entries then
              if data.entries[q[0]].Text? then Some(Some(data.entries[q[0]].data)) else None
            else if replace && q[0] in t.kids && t.kids[q[0]].slot.Some? then Some(None) else None
  {
    if |q| == 1 {
      assert [node][1..] == [] && q[1..] == [] && q == [q[0]];
      ProjectStep([node], q);
      var wild := Project([node], q);
      assert wild == if node == MANY_CARD then q else [];
      if node == MANY_CARD {
        assert wild[..|wild| - 1] == [];
        assert ItemAt(data, wild) == if q[0] in data.entries then Some(data.entries[q[0]]) else None;
        assert SlotAt(t, q) == if q[0] in t.kids then t.kids[q[0]].slot else None;
      }
    }
  }

  lemma FlattenedOne(t: Trie<Payload>, topic: Path, data: Item, replace: bool, qos: nat, base: Path, key: string, payload: Payload)
    requires |topic| == 1 && topic[0] != EVERYTHING_CARD && (topic[0] == MANY_CARD ==> data.Obj?)
    requires Emitted(t, topic, data, replace, [key]) == Some(payload)
    ensures FlattenedFor([Row(base + [key], payload, qos)], t, topic, data, replace, qos, base, {key})
  {
    var rows := [Row(base + [key], payload, qos)];
    assert rows[0].topic[|base|..] == [key];
    forall q: Path | Emitted(t, topic, data, replace, q).Some? && StartsIn(q, {key})
      ensures HasTopic(rows, base + q)
    {
      assert q == [key];
      assert rows[0] in rows;
    }
  }

  lemma FlattenedNone(t: Trie<Payload>, topic: Path, data: Item, replace: bool, qos: nat, base: Path, key: string)
    requires |topic| == 1 && topic[0] != EVERYTHING_CARD && (topic[0] == MANY_CARD ==> data.Obj?)
    requires Emitted(t, topic, data, replace, [key]) == None
    ensures FlattenedFor([], t, topic, data, replace, qos, base, {key})
  {
    forall q: Path
      ensures !(Emitted(t, topic, data, replace, q).Some? && StartsIn(q, {key}))
    {
      if |q| == 1 && q[0] == key {
        assert q == [key];
      }
    }
  }

  // ---------------------------------------------------------------- the code

  ghost function ValueOf(tree: RecursiveDefaultDict?<Payload>): Trie<Payload>
    reads tree
  {
    if tree == null then Empty() else tree.Value
  }

  method FlattenMessageIntoRows(topic: Path, data: Item, qos: nat, base: Path, tree: RecursiveDefaultDict?<Payload>, replace: bool)
    returns (r: Result<seq<Row>>)
    requires topic != [] && (tree != null ==> tree.Valid())
    ensures r.Ok? <==> Fits(topic, data)
    ensures r.Ok? ==> Flattened(r.value, ValueOf(tree), topic, data, replace, qos, base)
    decreases topic, 0
  {
    hide Flattened, FlattenedFor, Emitted;
    var node, nextTopic := topic[0], topic[1..];
    assert topic == [node] + nextTopic;
    if node == EVERYTHING_CARD {
      return Err(InvalidEverythingCard);
    } else if node == MANY_CARD {
      if !data.Obj? {
        return Err(NotATree);
      }
      if nextTopic == [] {
        r := FlattenLast(topic, data, qos, base, tree, replace);
      } else {
        r := FlattenBranches(topic, data, qos, base, tree, replace);
      }
    } else if nextTopic == [] {
      if !data.Text? {
        return Err(NotAString);
      }
      assert topic == [node];
      EmittedLast(ValueOf(tree), node, data, replace, [node]);
      FlattenedOne(ValueOf(tree), topic, data, replace, qos, base, node, Some(data.data));
      forall q: Path | Emitted(ValueOf(tree), topic, data, replace, q).Some?
        ensures StartsIn(q, {node})
      {
        EmittedLast(ValueOf(tree), node, data, replace, q);
      }
      FlattenedAll([Row(base + [node], Some(data.data), qos)], ValueOf(tree), topic, data, replace, qos, base, {node});
      return Ok([Row(base + topic, Some(data.data), qos)]);
    } else {
      var below := Get(tree, node);
      r := FlattenMessageIntoRows(nextTopic, data, qos, base + [node], below, replace);
      if r.Ok? {
        FlattenedBranch(r.value, ValueOf(tree), topic, data, data, replace, qos, base, node);
        forall q: Path | Emitted(ValueOf(tree), topic, data, replace, q).Some?
          ensures StartsIn(q, {node})
        {
          EmittedKey(ValueOf(tree), topic, data, replace, q);
        }
        FlattenedAll(r.value, ValueOf(tree), topic, data, replace, qos, base, {node});
      }
    }
  }

  /** tree.get(key, {}). */
  method Get(tree: RecursiveDefaultDict?<Payload>, key: string) returns (below: RecursiveDefaultDict?<Payload>)
    requires tree != null ==> tree.Valid()
    ensures below != null ==> below.Valid()
    ensures ValueOf(below) == Child(ValueOf(tree), key)
  {
    below := null;
    if tree != null && key in tree.kids {
      below := tree.kids[key];
    }
  }

  /** A "+" before the end: one flattening for each key of the data. */
  method FlattenBranches(topic: Path, data: Item, qos: nat, base: Path, tree: RecursiveDefaultDict?<Payload>, replace: bool)
    returns (r: Result<seq<Row>>)
    requires |topic| > 1 && topic[0] == MANY_CARD && data.Obj? && (tree != null ==> tree.Valid())
    ensures r.Ok? <==> Fits(topic, data)
    ensures r.Ok? ==> Flattened(r.value, ValueOf(tree), topic, data, replace, qos, base)
    decreases topic[1..], 1
  {
    hide Flattened, FlattenedFor, Emitted;
    var result: seq<Row> := [];
    var todo := data.entries.Keys;
    FlattenedStart(ValueOf(tree), topic, data, replace, qos, base);
    assert data.entries.Keys - todo == {};
    while todo != {}
      invariant todo <= data.entries.Keys
      invariant forall key :: key in data.entries && key !in todo ==> Fits(topic[1..], data.entries[key])
      invariant FlattenedFor(result, ValueOf(tree), topic, data, replace, qos, base, data.entries.Keys - todo)
      decreases todo
    {
      var key :| key in todo;
      var below := Get(tree, key);
      var rows := FlattenMessageIntoRows(topic[1..], data.entries[key], qos, base + [key], below, replace);
      if rows.Err? {
        return rows;
      }
      FlattenedBranch(rows.value, ValueOf(tree), topic, data, data.entries[key], replace, qos, base, key);
      FlattenedJoin(result, rows.value, ValueOf(tree), topic, data, replace, qos, base, data.entries.Keys - todo, key);
      assert data.entries.Keys - (todo - {key}) == data.entries.Keys - todo + {key};
      result, todo := result + rows.value, todo - {key};
    }
    forall q: Path | Emitted(ValueOf(tree), topic, data, replace, q).Some?
      ensures StartsIn(q, data.entries.Keys - todo)
    {
      EmittedKey(ValueOf(tree), topic, data, replace, q);
    }
    FlattenedAll(result, ValueOf(tree), topic, data, replace, qos, base, data.entries.Keys - todo);
    r := Ok(result);
  }

  /** The last "+": a row for each key, and in replace mode a delete for each leaf of the tree the data lacks. */
  method FlattenLast(topic: Path, data: Item, qos: nat, base: Path, tree: RecursiveDefaultDict?<Payload>, replace: bool)
    returns (r: Result<seq<Row>>)
    requires topic == [MANY_CARD] && data.Obj? && (tree != null ==> tree.Valid())
    ensures r.Ok? <==> Fits(topic, data)
    ensures r.Ok? ==> Flattened(r.value, ValueOf(tree), topic, data, replace, qos, base)
    decreases topic[1..], 1
  {
    hide Flattened, FlattenedFor, Emitted;
    ghost var t := ValueOf(tree);
    var results: seq<Row> := [];
    var todo := data.entries.Keys;
    FlattenedStart(t, topic, data, replace, qos, base);
    assert data.entries.Keys - todo == {};
    while todo != {}
      invariant todo <= data.entries.Keys
      invariant forall key :: key in data.entries && key !in todo ==> data.entries[key].Text?
      invariant FlattenedFor(results, t, topic, data, replace, qos, base, data.entries.Keys - todo)
      decreases todo
    {
      var key :| key in todo;
      if !data.entries[key].Text? {
        return Err(NotAString);
      }
      var row := Row(base + [key], Some(data.entries[key].data), qos);
      EmittedLast(t, MANY_CARD, data, replace, [key]);
      FlattenedOne(t, topic, data, replace, qos, base, key, row.data);
      FlattenedJoin(results, [row], t, topic, data, replace, qos, base, data.entries.Keys - todo, key);
      assert data.entries.Keys - (todo - {key}) == data.entries.Keys - todo + {key};
      results, todo := results + [row], todo - {key};
    }
    assert data.entries.Keys - todo == data.entries.Keys;
    ghost var selected := data.entries.Keys;
    if replace && tree != null {
      results := FlattenDeletes(data, results, qos, base, tree);
      selected := selected + t.kids.Keys;
    }
    forall q: Path | Emitted(t, topic, data, replace, q).Some?
      ensures StartsIn(q, selected)
    {
      EmittedLast(t, MANY_CARD, data, replace, q);
    }
    FlattenedAll(results, t, topic, data, replace, qos, base, selected);
    r := Ok(results);
  }

  method FlattenDeletes(data: Item, start: seq<Row>, qos: nat, base: Path, tree: RecursiveDefaultDict<Payload>)
    returns (results: seq<Row>)
    requires data.Obj? && tree.Valid()
    requires FlattenedFor(start, tree.Value, [MANY_CARD], data, true, qos, base, data.entries.Keys)
    ensures FlattenedFor(results, tree.Value, [MANY_CARD], data, true, qos, base, data.entries.Keys + tree.Value.kids.Keys)
  {
    hide FlattenedFor, Emitted, RecursiveDefaultDict.Valid, RecursiveDefaultDict.Linked;
    tree.KeyKinds();
    results := start;
    ghost var selected := data.entries.Keys;
    for i := 0 to |tree.keys|
      invariant FlattenedFor(results, tree.Value, [MANY_CARD], data, true, qos, base, selected)
      invariant data.entries.Keys <= selected <= data.entries.Keys + tree.kids.Keys
      invariant forall k :: k in tree.kids ==> (k in selected <==> k in data.entries || k in tree.keys[..i])
    {
      var key := tree.keys[i];
      tree.DistinctKeys(i);
      if key != LEAF_KEY {
        var val := tree.kids[key];
        val.KeyKinds();
        EmittedLast(tree.Value, MANY_CARD, data, true, [key]);
        if val.slot.Some? && key !in data.entries {
          var row := Row(base + [key], None, qos);
          FlattenedOne(tree.Value, [MANY_CARD], data, true, qos, base, key, None);
          FlattenedJoin(results, [row], tree.Value, [MANY_CARD], data, true, qos, base, selected, key);
          results, selected := results + [row], selected + {key};
        } else if key !in data.entries {
          FlattenedNone(tree.Value, [MANY_CARD], data, true, qos, base, key);
          FlattenedJoin(results, [], tree.Value, [MANY_CARD], data, true, qos, base, selected, key);
          assert results + [] == results;
          selected := selected + {key};
        }
      }
    }
    assert selected == data.entries.Keys + tree.Value.kids.Keys;
  }
}

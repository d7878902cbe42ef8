/** protocols/get_applicable_rows.py and get_everything_as_rows.py: a publish with wildcards, expanded against the retained tree. */
module ApplicableRows {
  import opened Wrappers
  import opened Topics
  import opened Tries
  import opened Rows
  import opened RecursiveDefaultDicts

  // ---------------------------------------------------------------- the topics an expansion yields, below the node it starts at

  function Under(base: Path, topics: seq<Path>): seq<Path> {
    seq(|topics|, i requires 0 <= i < |topics| => base + topics[i])
  }

  /** Every leaf-bearing path of a trie in walk order, the start itself left out. */
  function Everything(t: Trie<Payload>, start: bool): seq<Path>
    decreases t, |t.keys| + 1
  {
    EverythingUnder(t, t.keys, start)
  }

  function EverythingUnder(t: Trie<Payload>, keys: seq<string>, start: bool): seq<Path>
    decreases t, |keys|
  {
    if keys == [] then []
    else
      var key := keys[|keys| - 1];
      EverythingUnder(t, keys[..|keys| - 1], start) +
      if key in t.kids then Under([key], Everything(t.kids[key], false))
      else if start then [] else [[]]
  }

  function Expand(t: Trie<Payload>, topic: Path, foundWildcard: bool): Result<seq<Path>>
    requires topic != []
    decreases topic, 0
  {
    var node, nextTopic := topic[0], topic[1..];
    if node == EVERYTHING_CARD then
      if nextTopic != [] then Err(InvalidEverythingCard) else Ok(Everything(t, true))
    else if node == MANY_CARD then
      ExpandUnder(t, t.keys, nextTopic)
    else if nextTopic == [] then
      Ok([topic])
    else if node !in t.kids then
      Ok(if foundWildcard || !IsStatic(nextTopic) then [] else [topic])
    else
      var below :- Expand(t.kids[node], nextTopic, foundWildcard);
      Ok(Under([node], below))
  }

  function ExpandUnder(t: Trie<Payload>, keys: seq<string>, nextTopic: Path): Result<seq<Path>>
    decreases nextTopic, 1, |keys|
  {
    if keys == [] then Ok([])
    else
      var key := keys[|keys| - 1];
      var before :- ExpandUnder(t, keys[..|keys| - 1], nextTopic);
      if key !in t.kids then Ok(before)
      else if nextTopic == [] then Ok(before + [[key]])
      else
        var below :- Expand(t.kids[key], nextTopic, true);
        Ok(before + Under([key], below))
  }

  /** The rows of an expansion that starts at base. */
  function RowsFor(base: Path, topics: seq<Path>, data: Payload, qos: nat): seq<Row> {
    seq(|topics|, i requires 0 <= i < |topics| => Row(base + topics[i], data, qos))
  }

  // ---------------------------------------------------------------- the code

  lemma RowsForUnder(base: Path, node: string, topics: seq<Path>, data: Payload, qos: nat)
    ensures RowsFor(base, Under([node], topics), data, qos) == RowsFor(base + [node], topics, data, qos)
  {
    forall i | 0 <= i < |topics|
      ensures base + ([node] + topics[i]) == (base + [node]) + topics[i]
    {
    }
  }

  lemma RowsForConcat(base: Path, a: seq<Path>, b: seq<Path>, data: Payload, qos: nat)
    ensures RowsFor(base, a + b, data, qos) == RowsFor(base, a, data, qos) + RowsFor(base, b, data, qos)
  {
  }

  lemma RowsForOne(base: Path, topic: Path, data: Payload, qos: nat)
    ensures RowsFor(base, [topic], data, qos) == [Row(base + topic, data, qos)]
    ensures RowsFor(base, [[]], data, qos) == [Row(base, data, qos)]
    ensures RowsFor(base, [], data, qos) == []
  {
    assert base + [] == base;
  }

  method GetEverythingAsRows(topic: Path, data: Payload, qos: nat, tree: RecursiveDefaultDict<Payload>, start: bool)
    returns (result: seq<Row>)
    requires tree.Valid()
    ensures result == RowsFor(topic, Everything(tree.Value, start), data, qos)
    decreases tree.Repr
  {
    hide RecursiveDefaultDict.Valid, RecursiveDefaultDict.Linked, RowsFor, Under;
    tree.KeyKinds();
    RowsForOne(topic, [], data, qos);
    result := [];
    var keys := tree.keys;
    for i := 0 to |keys|
      invariant result == RowsFor(topic, EverythingUnder(tree.Value, keys[..i], start), data, qos)
    {
      var key := keys[i];
      assert keys[..i + 1][..i] == keys[..i];
      ghost var before := EverythingUnder(tree.Value, keys[..i], start);
      if key == LEAF_KEY {
        RowsForConcat(topic, before, if start then [] else [[]], data, qos);
        if !start {
          result := result + [Row(topic, data, qos)];
        }
      } else {
        var branchRows := GetEverythingAsRows(topic + [key], data, qos, tree.kids[key], false);
        result := result + branchRows;
        ghost var below := Everything(tree.Value.kids[key], false);
        RowsForUnder(topic, key, below, data, qos);
        RowsForConcat(topic, before, Under([key], below), data, qos);
      }
    }
    assert keys[..|keys|] == keys;
  }

  method GetApplicableRows(topic: Path, data: Payload, qos: nat, base: Path, tree: RecursiveDefaultDict<Payload>, foundWildcard: bool)
    returns (r: Result<seq<Row>>)
    requires topic != [] && tree.Valid()
    ensures r.Ok? <==> Expand(tree.Value, topic, foundWildcard).Ok?
    ensures r.Ok? ==> r.value == RowsFor(base, Expand(tree.Value, topic, foundWildcard).value, data, qos)
    ensures r.Err? ==> r.error == InvalidEverythingCard
    decreases topic, 0
  {
    hide RecursiveDefaultDict.Valid, RecursiveDefaultDict.Linked;
    tree.KeyKinds();
    var node, nextTopic := topic[0], topic[1..];
    assert topic == [node] + nextTopic;
    if node == EVERYTHING_CARD {
      if nextTopic != [] {
        return Err(InvalidEverythingCard);
      }
      var all := GetEverythingAsRows(base, data, qos, tree, true);
      return Ok(all);
    } else if node == MANY_CARD {
      r := RowsUnder(nextTopic, data, qos, base, tree);
    } else if nextTopic == [] {
      return Ok([Row(base + topic, data, qos)]);
    } else if node !in tree.kids {
      if foundWildcard {
        return Ok([]);
      }
      for i := 0 to |nextTopic|
        invariant forall j :: 0 <= j < i ==> IsNodeStatic(nextTopic[j])
      {
        if !IsNodeStatic(nextTopic[i]) {
          assert nextTopic[i] in nextTopic;
          return Ok([]);
        }
      }
      return Ok([Row(base + topic, data, qos)]);
    } else {
      r := GetApplicableRows(nextTopic, data, qos, base + [node], tree.kids[node], foundWildcard);
      if r.Ok? {
        RowsForUnder(base, node, Expand(tree.Value.kids[node], nextTopic, foundWildcard).value, data, qos);
      }
    }
  }

  lemma {:induction false} ErrKeeps(t: Trie<Payload>, keys: seq<string>, nextTopic: Path, i: nat)
    requires i <= |keys| && ExpandUnder(t, keys[..i], nextTopic).Err?
    ensures ExpandUnder(t, keys, nextTopic).Err?
    decreases |keys|
  {
    if i < |keys| {
      assert keys[..|keys| - 1][..i] == keys[..i];
      ErrKeeps(t, keys[..|keys| - 1], nextTopic, i);
    } else {
      assert keys[..i] == keys;
    }
  }

  /** The "+" case: one row, or one expansion, for each branch. */
  method RowsUnder(nextTopic: Path, data: Payload, qos: nat, base: Path, tree: RecursiveDefaultDict<Payload>)
    returns (r: Result<seq<Row>>)
    requires tree.Valid()
    ensures r.Ok? <==> ExpandUnder(tree.Value, tree.keys, nextTopic).Ok?
    ensures r.Ok? ==> r.value == RowsFor(base, ExpandUnder(tree.Value, tree.keys, nextTopic).value, data, qos)
    ensures r.Err? ==> r.error == InvalidEverythingCard
    decreases nextTopic, 1
  {
    hide RecursiveDefaultDict.Valid, RecursiveDefaultDict.Linked, RowsFor, Under, Expand;
    tree.KeyKinds();
    RowsForOne(base, [], data, qos);
    var result: seq<Row> := [];
    var keys := tree.keys;
    for i := 0 to |keys|
      invariant ExpandUnder(tree.Value, keys[..i], nextTopic).Ok?
      invariant result == RowsFor(base, ExpandUnder(tree.Value, keys[..i], nextTopic).value, data, qos)
    {
      var key := keys[i];
      assert keys[..i + 1][..i] == keys[..i];
      ghost var before := ExpandUnder(tree.Value, keys[..i], nextTopic).value;
      if key != LEAF_KEY {
        if nextTopic == [] {
          RowsForOne(base, [key], data, qos);
          RowsForConcat(base, before, [[key]], data, qos);
          result := result + [Row(base + [key], data, qos)];
        } else {
          var branchRows := GetApplicableRows(nextTopic, data, qos, base + [key], tree.kids[key], true);
          if branchRows.Err? {
            ErrKeeps(tree.Value, keys, nextTopic, i + 1);
            return branchRows;
          }
          ghost var below := Expand(tree.Value.kids[key], nextTopic, true).value;
          RowsForUnder(base, key, below, data, qos);
          RowsForConcat(base, before, Under([key], below), data, qos);
          result := result + branchRows.value;
        }
      }
    }
    assert keys[..|keys|] == keys;
    r := Ok(result);
  }
}

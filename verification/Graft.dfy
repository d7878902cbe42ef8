/** What grafting a JSON tree means: building and flattening are inverse, and replace mode replaces. */
module Graft {
  import opened Wrappers
  import opened Bytes
  import opened Topics
  import opened Tries
  import opened Rows
  import opened Items
  import opened Flattening

  lemma LastForRow(rows: seq<Row>, row: Row)
    requires DistinctTopics(rows) && row in rows
    ensures LastFor(rows, row.topic) == Some(row.data)
  {
    LastForIn(rows, row.topic);
    var other :| other in rows && other.topic == row.topic && Some(other.data) == LastFor(rows, row.topic);
    var i :| 0 <= i < |rows| && rows[i] == row;
    var j :| 0 <= j < |rows| && rows[j] == other;
  }

  /** The last payload a flattened batch has for a topic is what was emitted for it. */
  lemma FlattenedLast(rows: seq<Row>, t: Trie<Payload>, topic: Path, data: Item, replace: bool, qos: nat, q: Path)
    requires topic != [] && Flattened(rows, t, topic, data, replace, qos, [])
    ensures LastFor(rows, q) == Emitted(t, topic, data, replace, q)
  {
    LastForIn(rows, q);
    assert [] + q == q;
    forall row | row in rows && row.topic == q
      ensures LastFor(rows, q) == Some(row.data) == Emitted(t, topic, data, replace, q)
    {
      LastForRow(rows, row);
      assert row.topic[0..] == row.topic;
    }
    if Emitted(t, topic, data, replace, q).Some? {
      assert HasTopic(rows, [] + q);
    }
  }

  // ---------------------------------------------------------------- build, then flatten

  /** A tree of strings k objects deep. */
  ghost predicate Texts(item: Item, k: nat) {
    if k == 0 then item.Text?
    else item.Obj? && forall key :: key in item.entries ==> Texts(item.entries[key], k - 1)
  }

  lemma {:induction false} TextsFit(topic: Path, item: Item)
    requires topic != [] && EVERYTHING_CARD !in topic && Texts(item, Wilds(topic))
    ensures Fits(topic, item)
    decreases topic
  {
    assert topic[0] in topic && forall node :: node in topic[1..] ==> node in topic;
    if |topic| > 1 {
      if topic[0] == MANY_CARD {
        forall key | key in item.entries
          ensures Fits(topic[1..], item.entries[key])
        {
          TextsFit(topic[1..], item.entries[key]);
        }
      } else {
        TextsFit(topic[1..], item);
      }
    } else {
      assert topic[1..] == [];
    }
  }

  lemma {:induction false} TextsUniform(item: Item, wild: Path)
    requires Texts(item, |wild|)
    ensures Uniform(item, |wild|)
    ensures ItemAt(item, wild).Some? ==> ItemAt(item, wild).value.Text?
    decreases |wild|
  {
    if wild != [] {
      forall key | key in item.entries
        ensures Uniform(item.entries[key], |wild| - 1)
      {
        TextsUniform(item.entries[key], wild[1..]);
      }
      if wild[0] in item.entries {
        TextsUniform(item.entries[wild[0]], wild[1..]);
      }
    }
  }

  lemma {:induction false} SetPathTexts(item: Item, path: Path, data: bytes)
    requires Texts(item, |path|) || path == []
    ensures Texts(SetPath(item, path, Text(data)), |path|)
    ensures path != [] && NoEmptyObject(item) ==> Solid(SetPath(item, path, Text(data)))
    decreases path
  {
    if path != [] {
      var below := if path[0] in item.entries then item.entries[path[0]] else Obj(map[]);
      SetPathTexts(below, path[1..], data);
      assert NoEmptyObject(item) ==> NoEmptyObject(below);
      var result := SetPath(item, path, Text(data));
      assert path[0] in result.entries.Keys;
    }
  }

  lemma {:induction false} BuildTexts(filter: Path, rows: seq<Row>)
    requires EVERYTHING_CARD !in filter && MANY_CARD in filter && AllMatch(rows, filter)
    requires forall row :: row in rows ==> row.data.Some?
    ensures Texts(BuildItem(filter, rows), Wilds(filter)) && NoEmptyObject(BuildItem(filter, rows))
  {
    HasWild(filter);
    if rows != [] {
      var init, last := rows[..|rows| - 1], rows[|rows| - 1];
      assert last in rows;
      BuildTexts(filter, init);
      ProjectLength(filter, last.topic);
      SetPathTexts(BuildItem(filter, init), Project(filter, last.topic), last.data.value);
    }
  }

  lemma EmittedPlain(t: Trie<Payload>, filter: Path, item: Item, q: Path)
    requires filter != [] && EVERYTHING_CARD !in filter && Texts(item, Wilds(filter))
    ensures Matches(filter, q) && ItemAt(item, Project(filter, q)).Some? ==> ItemAt(item, Project(filter, q)).value.Text?
    ensures Emitted(t, filter, item, false, q) ==
            if !Matches(filter, q) || ItemAt(item, Project(filter, q)).None? then None
            else Some(Some(ItemAt(item, Project(filter, q)).value.data))
  {
    if Matches(filter, q) {
      ProjectLength(filter, q);
      TextsUniform(item, Project(filter, q));
    }
  }

  /**
   Flattening the message built from matching rows yields each distinct topic once, with its last
   payload, whatever the tree and whatever order the keys are walked in.
   */
  lemma FlattenBuild(filter: Path, rows: seq<Row>, qos: nat, t: Trie<Payload>, out: seq<Row>)
    requires EVERYTHING_CARD !in filter && MANY_CARD in filter && AllMatch(rows, filter)
    requires forall row :: row in rows ==> row.data.Some?
    requires Flattened(out, t, filter, BuildItem(filter, rows), false, qos, [])
    ensures Fits(filter, BuildItem(filter, rows))
    ensures DistinctTopics(out) && forall topic: Path :: LastFor(out, topic) == LastFor(rows, topic)
  {
    BuildTexts(filter, rows);
    TextsFit(filter, BuildItem(filter, rows));
    forall topic: Path
      ensures LastFor(out, topic) == LastFor(rows, topic)
    {
      FlattenedLast(out, t, filter, BuildItem(filter, rows), false, qos, topic);
      EmittedPlain(t, filter, BuildItem(filter, rows), topic);
      if Matches(filter, topic) {
        FillProject(filter, topic);
        BuildItemAt(filter, rows, Project(filter, topic));
        LastForIn(rows, topic);
      } else {
        LastForIn(rows, topic);
      }
    }
  }

  lemma {:induction false} SameItem(a: Item, b: Item, k: nat)
    requires Uniform(a, k) && Uniform(b, k) && NoEmptyObject(a) && NoEmptyObject(b)
    requires forall wild: Path :: |wild| == k ==> ItemAt(a, wild) == ItemAt(b, wild)
    ensures a == b
    decreases k
  {
    if k == 0 {
      var none: Path := [];
      assert ItemAt(a, none) == ItemAt(b, none);
    } else {
      forall key | key in a.entries
        ensures key in b.entries && a.entries[key] == b.entries[key]
      {
        KeyShared(a, b, key, k);
        forall wild: Path | |wild| == k - 1
          ensures ItemAt(a.entries[key], wild) == ItemAt(b.entries[key], wild)
        {
          var longer := [key] + wild;
          assert longer[1..] == wild && ItemAt(a, longer) == ItemAt(b, longer);
        }
        SameItem(a.entries[key], b.entries[key], k - 1);
      }
      forall key | key in b.entries
        ensures key in a.entries
      {
        KeyShared(b, a, key, k);
      }
      assert a.entries == b.entries;
    }
  }

  lemma {:induction false} SomeLeaf(item: Item, k: nat) returns (wild: Path)
    requires Uniform(item, k) && Solid(item)
    ensures |wild| == k && ItemAt(item, wild).Some?
  {
    wild := [];
    if k > 0 {
      var key :| key in item.entries;
      var rest := SomeLeaf(item.entries[key], k - 1);
      wild := [key] + rest;
      assert wild[1..] == rest;
    }
  }

  lemma ItemBelow(item: Item, path: Path)
    requires path != [] && item.Obj?
    ensures ItemAt(item, path) == if path[0] in item.entries then ItemAt(item.entries[path[0]], path[1..]) else None
  {
  }

  lemma KeyShared(a: Item, b: Item, key: string, k: nat)
    requires k > 0 && Uniform(a, k) && Uniform(b, k) && NoEmptyObject(a) && key in a.entries
    requires forall wild: Path :: |wild| == k ==> ItemAt(a, wild) == ItemAt(b, wild)
    ensures key in b.entries
  {
    hide ItemAt;
    var rest := SomeLeaf(a.entries[key], k - 1);
    var wild := [key] + rest;
    assert wild[1..] == rest && ItemAt(a, wild) == ItemAt(b, wild);
    ItemBelow(a, wild);
    ItemBelow(b, wild);
  }

  /** Rebuilding from the flattened rows of a uniform tree of strings with no empty branch returns that tree. */
  lemma BuildFlatten(filter: Path, item: Item, qos: nat, t: Trie<Payload>, out: seq<Row>)
    requires EVERYTHING_CARD !in filter && MANY_CARD in filter
    requires Texts(item, Wilds(filter)) && NoEmptyObject(item)
    requires Flattened(out, t, filter, item, false, qos, [])
    ensures AllMatch(out, filter) && BuildItem(filter, out) == item
  {
    forall row | row in out
      ensures Matches(filter, row.topic) && row.data.Some?
    {
      assert row.topic[0..] == row.topic;
      EmittedPlain(t, filter, item, row.topic);
    }
    BuildTexts(filter, out);
    var k := Wilds(filter);
    forall wild: Path | |wild| == k
      ensures ItemAt(BuildItem(filter, out), wild) == ItemAt(item, wild) && Uniform(item, k) && Uniform(BuildItem(filter, out), k)
    {
      var topic := Fill(filter, wild);
      ProjectFill(filter, wild);
      BuildItemAt(filter, out, wild);
      FlattenedLast(out, t, filter, item, false, qos, topic);
      EmittedPlain(t, filter, item, topic);
      TextsUniform(item, wild);
    }
    var some := seq(k, _ => "");
    assert |some| == k;
    SameItem(BuildItem(filter, out), item, k);
  }

  // ---------------------------------------------------------------- replace mode

  /**
   After a replace-mode graft is retained, under every parent the data reaches the keys that hold a
   value are exactly the data's keys, with the data's values.
   */
  lemma ReplaceGraft(t: Trie<Payload>, topic: Path, data: Item, qos: nat, out: seq<Row>, parent: Path, key: string)
    requires topic != [] && topic[|topic| - 1] == MANY_CARD && EVERYTHING_CARD !in topic && Fits(topic, data)
    requires Flattened(out, t, topic, data, true, qos, [])
    requires |parent| + 1 == Wilds(topic)
    requires ItemAt(data, parent).Some? && ItemAt(data, parent).value.Obj?
    ensures var entries := ItemAt(data, parent).value.entries;
            var slot := SlotAt(RetainAll(t, out), Fill(topic, parent + [key]));
            if key in entries then entries[key].Text? && slot == Some(Some(entries[key].data))
            else slot == None || slot == Some(None)
  {
    var wild := parent + [key];
    var q := Fill(topic, wild);
    ProjectFill(topic, wild);
    RetainSlot(t, out, q);
    FlattenedLast(out, t, topic, data, true, qos, q);
    ItemAtKey(data, parent, key);
    FitsTexts(topic, data, wild);
    assert wild[..|wild| - 1] == parent;
  }

  lemma {:induction false} ItemAtKey(item: Item, parent: Path, key: string)
    requires ItemAt(item, parent).Some? && ItemAt(item, parent).value.Obj?
    ensures ItemAt(item, parent + [key]) ==
            var entries := ItemAt(item, parent).value.entries;
            if key in entries then Some(entries[key]) else None
  {
    if parent != [] {
      assert (parent + [key])[1..] == parent[1..] + [key];
      ItemAtKey(item.entries[parent[0]], parent[1..], key);
    }
  }

  lemma {:induction false} FitsTexts(topic: Path, data: Item, wild: Path)
    requires topic != [] && EVERYTHING_CARD !in topic && Fits(topic, data) && |wild| == Wilds(topic)
    ensures ItemAt(data, wild).Some? ==> ItemAt(data, wild).value.Text?
    decreases topic
  {
    assert topic[0] in topic && forall node :: node in topic[1..] ==> node in topic;
    if |topic| > 1 {
      if topic[0] == MANY_CARD {
        if wild[0] in data.entries {
          FitsTexts(topic[1..], data.entries[wild[0]], wild[1..]);
        }
      } else {
        FitsTexts(topic[1..], data, wild);
      }
    } else {
      assert topic[1..] == [];
    }
  }

  /** Every leaf outside the emitted rows is as it was, and only topics that match are emitted. */
  lemma GraftElsewhere(t: Trie<Payload>, topic: Path, data: Item, replace: bool, qos: nat, out: seq<Row>, q: Path)
    requires topic != [] && Flattened(out, t, topic, data, replace, qos, [])
    requires !HasTopic(out, q)
    ensures SlotAt(RetainAll(t, out), q) == SlotAt(t, q)
    ensures Emitted(t, topic, data, replace, q) == None
  {
    RetainSlot(t, out, q);
    LastForIn(out, q);
    FlattenedLast(out, t, topic, data, replace, qos, q);
  }
}

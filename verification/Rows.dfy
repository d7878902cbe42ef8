/** Row batches: what a publish turns into, what the tree retains, what the broker broadcasts. */
module Rows {
  import opened Wrappers
  import opened Topics
  import opened Tries

  import opened Bytes

  /** None is the payload of a delete; retained, it leaves a tombstone. */
  type Payload = Option<bytes>

  datatype Row = Row(topic: Path, data: Payload, qos: nat)

  /** TreeManager.retain_rows on the tree's value: assign every row's leaf, in order. */
  function RetainAll(t: Trie<Payload>, rows: seq<Row>): Trie<Payload> {
    if rows == [] then t
    else
      var last := rows[|rows| - 1];
      Put(RetainAll(t, rows[..|rows| - 1]), last.topic, last.data)
  }

  /** The payload of the last row for a topic. */
  function LastFor(rows: seq<Row>, topic: Path): Option<Payload> {
    if rows == [] then None
    else if rows[|rows| - 1].topic == topic then Some(rows[|rows| - 1].data)
    else LastFor(rows[..|rows| - 1], topic)
  }

  /** The rows whose topic matches a filter, in batch order. */
  function Matching(rows: seq<Row>, filter: Path): seq<Row> {
    if rows == [] then []
    else
      var last := rows[|rows| - 1];
      Matching(rows[..|rows| - 1], filter) + if Matches(filter, last.topic) then [last] else []
  }

  predicate AllMatch(rows: seq<Row>, filter: Path) {
    forall row :: row in rows ==> Matches(filter, row.topic)
  }

  predicate TopicsOk(rows: seq<Row>) {
    forall row :: row in rows ==> IsTopic(row.topic)
  }

  /** The value a reader can see at a leaf: tombstones and empty payloads count as no value. */
  function Visible(slot: Option<Payload>): Option<bytes> {
    if slot.Some? && slot.value.Some? && slot.value.value != [] then slot.value else None
  }

  lemma {:induction false} RetainSlot(t: Trie<Payload>, rows: seq<Row>, path: Path)
    ensures SlotAt(RetainAll(t, rows), path) ==
            if LastFor(rows, path).Some? then LastFor(rows, path) else SlotAt(t, path)
  {
    if rows != [] {
      var init, last := rows[..|rows| - 1], rows[|rows| - 1];
      RetainSlot(t, init, path);
      PutSlot(RetainAll(t, init), last.topic, last.data, path);
    }
  }

  lemma {:induction false} MatchingIn(rows: seq<Row>, filter: Path)
    ensures forall row :: row in Matching(rows, filter) <==> row in rows && Matches(filter, row.topic)
    ensures AllMatch(Matching(rows, filter), filter)
  {
    if rows != [] {
      MatchingIn(rows[..|rows| - 1], filter);
      assert rows == rows[..|rows| - 1] + [rows[|rows| - 1]];
    }
  }

  lemma {:induction false} LastMatching(rows: seq<Row>, filter: Path, topic: Path)
    requires Matches(filter, topic)
    ensures LastFor(Matching(rows, filter), topic) == LastFor(rows, topic)
  {
    if rows != [] {
      var init, last := rows[..|rows| - 1], rows[|rows| - 1];
      LastMatching(init, filter, topic);
      if Matches(filter, last.topic) {
        var m := Matching(rows, filter);
        assert m[..|m| - 1] == Matching(init, filter) && m[|m| - 1] == last;
      } else {
        assert Matching(rows, filter) == Matching(init, filter);
      }
    }
  }

  lemma {:induction false} LastForIn(rows: seq<Row>, topic: Path)
    ensures LastFor(rows, topic).Some? <==> exists row :: row in rows && row.topic == topic
    ensures LastFor(rows, topic).Some? ==>
              exists row :: row in rows && row.topic == topic && Some(row.data) == LastFor(rows, topic)
  {
    if rows != [] {
      var init, last := rows[..|rows| - 1], rows[|rows| - 1];
      LastForIn(init, topic);
      assert rows == init + [last];
      assert last in rows;
    }
  }

  lemma {:induction false} LastForConcat(a: seq<Row>, b: seq<Row>, topic: Path)
    ensures LastFor(a + b, topic) == if LastFor(b, topic).Some? then LastFor(b, topic) else LastFor(a, topic)
  {
    if b == [] {
      assert a + b == a;
    } else {
      LastForConcat(a, b[..|b| - 1], topic);
      assert (a + b)[..|a + b| - 1] == a + b[..|b| - 1];
    }
  }

  lemma {:induction false} RetainConcat(t: Trie<Payload>, a: seq<Row>, b: seq<Row>)
    ensures RetainAll(t, a + b) == RetainAll(RetainAll(t, a), b)
  {
    hide Put;
    if b == [] {
      assert a + b == a;
    } else {
      var init, last := b[..|b| - 1], b[|b| - 1];
      RetainConcat(t, a, init);
      assert (a + b)[..|a + b| - 1] == a + init && (a + b)[|a + b| - 1] == last;
    }
  }
}

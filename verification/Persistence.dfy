/**
 tree/manager.py TreeWorker and backends/: the persisted copy of the retained tree. The table is a
 map from topic string to payload and qos; bulk_create with conflicts is an upsert in list order.
 */
module Persistence {
  import opened Wrappers
  import opened Bytes
  import opened Topics
  import opened Tries
  import opened Rows
  import opened Snapshots

  datatype Record = Record(data: bytes, qos: nat)
  datatype Entry = Entry(topic: string, record: Record)
  type Table = map<string, Record>

  /** Row-by-row persistence: what one row alone would do. */
  function ApplyRow(db: Table, row: Row): Table
    requires row.topic != []
  {
    if row.data.None? then db - {Join(row.topic)}
    else db[Join(row.topic) := Record(row.data.value, row.qos)]
  }

  function Applied(db: Table, rows: seq<Row>): Table
    requires TopicsOk(rows)
  {
    if rows == [] then db
    else
      assert rows[|rows| - 1] in rows;
      ApplyRow(Applied(db, rows[..|rows| - 1]), rows[|rows| - 1])
  }

  /** The topics run_tasks deletes, and the entries it then creates. */
  function Deletes(rows: seq<Row>): set<string>
    requires TopicsOk(rows)
  {
    set row | row in rows && row.data.None? :: Join(row.topic)
  }

  function Creates(rows: seq<Row>): seq<Entry>
    requires TopicsOk(rows)
  {
    if rows == [] then []
    else
      var last := rows[|rows| - 1];
      assert last in rows;
      Creates(rows[..|rows| - 1]) +
      if last.data.None? then [] else [Entry(Join(last.topic), Record(last.data.value, last.qos))]
  }

  function Upserted(db: Table, entries: seq<Entry>): Table {
    if entries == [] then db
    else
      var last := entries[|entries| - 1];
      Upserted(db, entries[..|entries| - 1])[last.topic := last.record]
  }

  /** One batch through run_tasks: deletes first, then upserts in order. */
  function Batched(db: Table, rows: seq<Row>): Table
    requires TopicsOk(rows)
  {
    Upserted(db - Deletes(rows), Creates(rows))
  }

  /** Whether the last entry for a topic deletes it, and whether some entry writes it. */
  predicate EndsDeleted(rows: seq<Row>, topic: Path) {
    LastFor(rows, topic) == Some(None)
  }

  predicate Written(rows: seq<Row>, topic: Path) {
    exists row :: row in rows && row.topic == topic && row.data.Some?
  }

  /** No topic of the batch is both written and, in the end, deleted. */
  predicate Clean(rows: seq<Row>) {
    forall row :: row in rows ==> !(EndsDeleted(rows, row.topic) && Written(rows, row.topic))
  }

  // ---------------------------------------------------------------- one batch

  function At(db: Table, s: string): Option<Record> {
    if s in db then Some(db[s]) else None
  }

  /** The record of the last row that writes a topic. */
  function LastWrite(rows: seq<Row>, topic: Path): Option<Record> {
    if rows == [] then None
    else
      var last := rows[|rows| - 1];
      if last.topic == topic && last.data.Some? then Some(Record(last.data.value, last.qos))
      else LastWrite(rows[..|rows| - 1], topic)
  }

  lemma {:induction false} AppliedAt(db: Table, rows: seq<Row>, topic: Path)
    requires TopicsOk(rows) && IsTopic(topic)
    ensures At(Applied(db, rows), Join(topic)) ==
            match LastFor(rows, topic)
            case None => At(db, Join(topic))
            case Some(data) => if data.None? then None else LastWrite(rows, topic)
    ensures LastFor(rows, topic).Some? && LastFor(rows, topic).value.Some? ==>
              LastWrite(rows, topic).Some? && LastWrite(rows, topic).value.data == LastFor(rows, topic).value.value
  {
    if rows != [] {
      var init, last := rows[..|rows| - 1], rows[|rows| - 1];
      assert last in rows;
      AppliedAt(db, init, topic);
      if Join(last.topic) == Join(topic) {
        JoinInjective(last.topic, topic);
      }
    }
  }

  lemma {:induction false} LastWriteWritten(rows: seq<Row>, topic: Path)
    ensures LastWrite(rows, topic).Some? <==> Written(rows, topic)
  {
    if rows != [] {
      var init, last := rows[..|rows| - 1], rows[|rows| - 1];
      assert last in rows && rows == init + [last];
      LastWriteWritten(init, topic);
    }
  }

  /** The place of a topic's last write. */
  ghost predicate WritesLast(rows: seq<Row>, topic: Path, i: nat) {
    && i < |rows| && rows[i].topic == topic && rows[i].data.Some?
    && forall j :: i < j < |rows| && rows[j].topic == topic ==> rows[j].data.None?
  }

  /** The record a topic's last write leaves has that row's data and qos. */
  lemma {:induction false} LastWriteRow(rows: seq<Row>, topic: Path, i: nat)
    requires WritesLast(rows, topic, i)
    ensures LastWrite(rows, topic).Some?
    ensures var record := LastWrite(rows, topic).value; Some(record.data) == rows[i].data && record.qos == rows[i].qos
    decreases |rows|
  {
    if i < |rows| - 1 {
      LastWriteRow(rows[..|rows| - 1], topic, i);
    }
  }

  lemma {:induction false} UpsertedAt(db: Table, rows: seq<Row>, topic: Path)
    requires TopicsOk(rows) && IsTopic(topic)
    ensures At(Upserted(db, Creates(rows)), Join(topic)) ==
            if LastWrite(rows, topic).Some? then LastWrite(rows, topic) else At(db, Join(topic))
  {
    if rows != [] {
      var init, last := rows[..|rows| - 1], rows[|rows| - 1];
      assert last in rows;
      UpsertedAt(db, init, topic);
      var entries := Creates(rows);
      if last.data.Some? {
        assert entries[..|entries| - 1] == Creates(init);
        if Join(last.topic) == Join(topic) {
          JoinInjective(last.topic, topic);
        }
      } else {
        assert entries == Creates(init);
      }
    }
  }

  lemma BatchedAt(db: Table, rows: seq<Row>, topic: Path)
    requires TopicsOk(rows) && IsTopic(topic)
    ensures At(Batched(db, rows), Join(topic)) ==
            if LastWrite(rows, topic).Some? then LastWrite(rows, topic)
            else if LastFor(rows, topic).Some? then None
            else At(db, Join(topic))
  {
    UpsertedAt(db - Deletes(rows), rows, topic);
    LastWriteWritten(rows, topic);
    LastForIn(rows, topic);
    if Join(topic) in Deletes(rows) {
      var row :| row in rows && row.data.None? && Join(row.topic) == Join(topic);
      JoinInjective(row.topic, topic);
    } else if LastFor(rows, topic).Some? {
      var row :| row in rows && row.topic == topic && Some(row.data) == LastFor(rows, topic);
      assert row.data.Some?;
    }
  }

  lemma SameTable(a: Table, b: Table)
    requires forall topic: Path :: IsTopic(topic) ==> At(a, Join(topic)) == At(b, Join(topic))
    ensures a == b
  {
    forall s: string
      ensures (s in a <==> s in b) && (s in a ==> a[s] == b[s])
    {
      JoinSplit(s);
      assert At(a, s) == At(b, s);
    }
  }

  /** A batch through run_tasks equals row-by-row application exactly when it is clean, whatever the table. */
  lemma BatchIsRowByRow(db: Table, rows: seq<Row>)
    requires TopicsOk(rows)
    ensures Batched(db, rows) == Applied(db, rows) <==> Clean(rows)
  {
    if Clean(rows) {
      forall topic: Path | IsTopic(topic)
        ensures At(Batched(db, rows), Join(topic)) == At(Applied(db, rows), Join(topic))
      {
        BatchedAt(db, rows, topic);
        AppliedAt(db, rows, topic);
        LastWriteWritten(rows, topic);
        LastForIn(rows, topic);
      }
      SameTable(Batched(db, rows), Applied(db, rows));
    } else {
      var row :| row in rows && EndsDeleted(rows, row.topic) && Written(rows, row.topic);
      BatchedAt(db, rows, row.topic);
      AppliedAt(db, rows, row.topic);
      LastWriteWritten(rows, row.topic);
    }
  }

  // ---------------------------------------------------------------- the table and the tree

  /** The table holds exactly the leaves of the tree that have data. */
  ghost predicate Mirrors(db: Table, t: Trie<Payload>) {
    forall topic: Path :: IsTopic(topic) ==>
      match At(db, Join(topic))
      case Some(record) => SlotAt(t, topic) == Some(Some(record.data))
      case None => SlotAt(t, topic).GetOr(None) == None
  }

  lemma RowByRowMirrors(db: Table, t: Trie<Payload>, rows: seq<Row>)
    requires TopicsOk(rows) && Mirrors(db, t)
    ensures Mirrors(Applied(db, rows), RetainAll(t, rows))
  {
    hide Mirrors, Applied, RetainAll, LastFor, LastWrite, SlotAt, At, Join;
    MirrorsEach(db, t);
    forall topic: Path | IsTopic(topic)
      ensures MirrorsAt(Applied(db, rows), RetainAll(t, rows), topic)
    {
      AppliedAt(db, rows, topic);
      RetainSlot(t, rows, topic);
    }
    MirrorsEach(Applied(db, rows), RetainAll(t, rows));
  }

  // ---------------------------------------------------------------- runs

  /** batches: consumed and written; running: consumed, still being written; pending: the shared task list. */
  datatype State = State(tree: Trie<Payload>, pending: seq<Row>, running: seq<Row>, db: Table,
                         batches: seq<seq<Row>>, history: seq<Row>)

  datatype Step = Retain(rows: seq<Row>) | Consume | Finish

  predicate Enabled(s: State, step: Step) {
    match step
    case Retain(rows) => TopicsOk(rows)
    case Consume => s.running == []
    case Finish => s.running != [] && TopicsOk(s.running)
  }

  function Next(s: State, step: Step): State
    requires Enabled(s, step)
  {
    match step
    case Retain(rows) => s.(tree := RetainAll(s.tree, rows), pending := s.pending + rows, history := s.history + rows)
    case Consume => s.(running := s.pending, pending := [])
    case Finish => s.(db := Batched(s.db, s.running), batches := s.batches + [s.running], running := [])
  }

  ghost predicate Reachable(start: State, steps: seq<Step>, s: State)
    decreases |steps|
  {
    if steps == [] then s == start
    else
      var last := steps[|steps| - 1];
      exists before :: Reachable(start, steps[..|steps| - 1], before) && Enabled(before, last) && s == Next(before, last)
  }

  predicate Fresh(s: State) {
    s.pending == [] && s.running == [] && s.batches == [] && s.history == []
  }

  ghost predicate AllClean(batches: seq<seq<Row>>) {
    forall batch :: batch in batches ==> Clean(batch)
  }

  lemma {:induction false} AppliedConcat(db: Table, a: seq<Row>, b: seq<Row>)
    requires TopicsOk(a) && TopicsOk(b)
    ensures TopicsOk(a + b) && Applied(db, a + b) == Applied(Applied(db, a), b)
  {
    if b == [] {
      assert a + b == a;
    } else {
      var init := b[..|b| - 1];
      assert (a + b)[..|a + b| - 1] == a + init;
      AppliedConcat(db, a, init);
    }
  }

  /** The table after all the batches, each through run_tasks. */
  function BatchedAll(db: Table, batches: seq<seq<Row>>): Table
    requires forall batch :: batch in batches ==> TopicsOk(batch)
  {
    if batches == [] then db
    else
      assert batches[|batches| - 1] in batches;
      Batched(BatchedAll(db, batches[..|batches| - 1]), batches[|batches| - 1])
  }

  /** The last batch that names the topic both writes it and ends by deleting it, so what it wrote is back. */
  predicate Returned(batches: seq<seq<Row>>, topic: Path) {
    batches != [] &&
    var last := batches[|batches| - 1];
    if LastFor(last, topic).Some? then EndsDeleted(last, topic) && Written(last, topic)
    else Returned(batches[..|batches| - 1], topic)
  }

  lemma {:induction false} FlatLast(batches: seq<seq<Row>>)
    requires batches != []
    ensures Flat(batches) == Flat(batches[..|batches| - 1]) + batches[|batches| - 1]
  {
    FlatAppend(batches[..|batches| - 1], batches[|batches| - 1]);
    assert batches == batches[..|batches| - 1] + [batches[|batches| - 1]];
  }

  /** Whether a record is what a topic with this last entry should have, at its data. */
  predicate Records(at: Option<Record>, last: Payload) {
    if last.None? then at == None else at.Some? && at.value.data == last.value
  }

  /** What one batch leaves at a topic it names. */
  lemma BatchedNamed(db: Table, rows: seq<Row>, topic: Path)
    requires TopicsOk(rows) && IsTopic(topic) && LastFor(rows, topic).Some?
    ensures var at := At(Batched(db, rows), Join(topic));
            if EndsDeleted(rows, topic) && Written(rows, topic) then at.Some? else Records(at, LastFor(rows, topic).value)
  {
    BatchedAt(db, rows, topic);
    LastWriteWritten(rows, topic);
    AppliedAt(map[], rows, topic);
  }

  lemma BatchedUnnamed(db: Table, rows: seq<Row>, topic: Path)
    requires TopicsOk(rows) && IsTopic(topic) && LastFor(rows, topic) == None
    ensures At(Batched(db, rows), Join(topic)) == At(db, Join(topic))
  {
    BatchedAt(db, rows, topic);
    LastWriteWritten(rows, topic);
    LastForIn(rows, topic);
  }

  /** What all the batches leave at each topic: what row-by-row application would, but for returned topics. */
  lemma {:induction false} BatchedAllAt(db: Table, batches: seq<seq<Row>>, topic: Path)
    requires IsTopic(topic) && forall batch :: batch in batches ==> TopicsOk(batch)
    ensures var at, last := At(BatchedAll(db, batches), Join(topic)), LastFor(Flat(batches), topic);
            if Returned(batches, topic) then at.Some? && last == Some(None)
            else if last.Some? then Records(at, last.value)
            else at == At(db, Join(topic))
    decreases |batches|
  {
    hide Batched, LastFor, Flat, At, Written, Records;
    if batches != [] {
      var init, last := batches[..|batches| - 1], batches[|batches| - 1];
      assert last in batches && forall batch :: batch in init ==> batch in batches;
      BatchedAllAt(db, init, topic);
      FlatLast(batches);
      LastForConcat(Flat(init), last, topic);
      if LastFor(last, topic).Some? {
        BatchedNamed(BatchedAll(db, init), last, topic);
      } else {
        BatchedUnnamed(BatchedAll(db, init), last, topic);
      }
    } else {
      NothingFlat(topic);
    }
  }

  lemma NothingFlat(topic: Path)
    ensures LastFor(Flat([]), topic) == None
  {
  }

  ghost predicate Kept(start: State, s: State) {
    && Flat(s.batches) + s.running + s.pending == s.history
    && TopicsOk(s.history) && s.tree == RetainAll(start.tree, s.history)
    && (forall batch :: batch in s.batches ==> TopicsOk(batch)) && s.db == BatchedAll(start.db, s.batches)
    && TopicsOk(Flat(s.batches)) && (AllClean(s.batches) ==> s.db == Applied(start.db, Flat(s.batches)))
  }

  lemma KeptStep(start: State, before: State, step: Step)
    requires Kept(start, before) && Enabled(before, step)
    ensures Kept(start, Next(before, step))
  {
    hide Clean, RetainAll, Applied, Batched;
    var s := Next(before, step);
    match step
    case Retain(rows) =>
      RetainConcat(start.tree, before.history, rows);
      assert Flat(s.batches) + s.running + s.pending == (Flat(before.batches) + before.running + before.pending) + rows;
    case Consume =>
      assert Flat(s.batches) + s.running + s.pending == Flat(before.batches) + before.running + before.pending;
    case Finish =>
      FlatAppend(before.batches, before.running);
      assert s.batches[..|before.batches|] == before.batches;
      assert Flat(s.batches) + s.running + s.pending == Flat(before.batches) + before.running + before.pending;
      AppliedConcat(start.db, Flat(before.batches), before.running);
      if AllClean(s.batches) {
        assert before.running in s.batches;
        assert forall batch :: batch in before.batches ==> batch in s.batches;
        BatchIsRowByRow(before.db, before.running);
      }
  }

  /**
   At every reachable state the written batches, the one being written and the pending tasks are, end to
   end, all the rows ever retained; and as long as every written batch was clean the table is what
   row-by-row persistence of the written rows gives.
   */
  lemma {:induction false} NothingLost(start: State, steps: seq<Step>, s: State)
    requires Fresh(start) && Reachable(start, steps, s)
    ensures Kept(start, s)
    decreases |steps|
  {
    if steps != [] {
      var init, last := steps[..|steps| - 1], steps[|steps| - 1];
      var before :| Reachable(start, init, before) && Enabled(before, last) && s == Next(before, last);
      NothingLost(start, init, before);
      KeptStep(start, before, last);
    }
  }

  /** With clean batches and nothing pending or running, the table holds exactly the tree's data. */
  lemma QuiescentTable(start: State, steps: seq<Step>, s: State)
    requires Fresh(start) && Mirrors(start.db, start.tree) && Reachable(start, steps, s)
    requires AllClean(s.batches) && s.pending == [] && s.running == []
    ensures TopicsOk(s.history) && s.db == Applied(start.db, s.history) && Mirrors(s.db, s.tree)
  {
    NothingLost(start, steps, s);
    assert Flat(s.batches) + [] + [] == Flat(s.batches);
    RowByRowMirrors(start.db, start.tree, s.history);
  }

  /** No topic has come back: the last batch naming it, if any, does not both write it and end by deleting it. */
  ghost predicate NoneReturned(batches: seq<seq<Row>>) {
    forall topic: Path :: IsTopic(topic) ==> !Returned(batches, topic)
  }

  /** With nothing pending or running, a topic has come back exactly when the table differs there, the tree holding no data. */
  lemma QuiescentAt(start: State, s: State, topic: Path)
    requires Mirrors(start.db, start.tree) && Kept(start, s) && s.pending == [] && s.running == [] && IsTopic(topic)
    ensures MirrorsAt(s.db, s.tree, topic) <==> !Returned(s.batches, topic)
    ensures Returned(s.batches, topic) ==> SlotAt(s.tree, topic) == Some(None)
  {
    hide Mirrors, BatchedAll, Returned, Applied, LastFor, Flat, RetainAll, SlotAt, At, AllClean, Join;
    assert Flat(s.batches) + [] + [] == Flat(s.batches);
    MirrorsEach(start.db, start.tree);
    BatchedAllAt(start.db, s.batches, topic);
    RetainSlot(start.tree, s.history, topic);
  }

  /**
   With nothing pending or running, the table holds exactly the tree's data if and only if no topic has come
   back, in every run.
   */
  lemma QuiescentTableExact(start: State, steps: seq<Step>, s: State)
    requires Fresh(start) && Mirrors(start.db, start.tree) && Reachable(start, steps, s)
    requires s.pending == [] && s.running == []
    ensures Mirrors(s.db, s.tree) <==> NoneReturned(s.batches)
  {
    hide Mirrors, Returned, Kept, MirrorsAt, Reachable;
    NothingLost(start, steps, s);
    forall topic: Path | IsTopic(topic)
      ensures MirrorsAt(s.db, s.tree, topic) <==> !Returned(s.batches, topic)
    {
      QuiescentAt(start, s, topic);
    }
    MirrorsEach(s.db, s.tree);
  }

  /** With nothing pending or running, every topic with data in the tree is stored with that data. */
  lemma DataStored(start: State, steps: seq<Step>, s: State, topic: Path)
    requires Fresh(start) && Mirrors(start.db, start.tree) && Reachable(start, steps, s)
    requires s.pending == [] && s.running == [] && IsTopic(topic) && SlotAt(s.tree, topic).GetOr(None).Some?
    ensures Join(topic) in s.db && SlotAt(s.tree, topic) == Some(Some(s.db[Join(topic)].data))
  {
    hide Mirrors, Returned, Kept, Reachable, Join, SlotAt;
    NothingLost(start, steps, s);
    QuiescentAt(start, s, topic);
  }

  ghost predicate MirrorsAt(db: Table, t: Trie<Payload>, topic: Path)
    requires topic != []
  {
    match At(db, Join(topic))
    case Some(record) => SlotAt(t, topic) == Some(Some(record.data))
    case None => SlotAt(t, topic).GetOr(None) == None
  }

  lemma MirrorsEach(db: Table, t: Trie<Payload>)
    ensures Mirrors(db, t) <==> forall topic: Path :: IsTopic(topic) ==> MirrorsAt(db, t, topic)
  {
  }

  /** Two batches retained before the worker wakes are written as one. */
  lemma WrittenTogether(start: State, a: seq<Row>, b: seq<Row>)
    requires start.running == [] && start.pending == [] && TopicsOk(a) && TopicsOk(b) && TopicsOk(a + b) && a + b != []
    ensures Reachable(start, [Retain(a), Retain(b), Consume, Finish],
                      State(RetainAll(RetainAll(start.tree, a), b), [], [], Batched(start.db, a + b), start.batches + [a + b],
                            start.history + a + b))
  {
    hide TopicsOk, Batched, RetainAll, Reachable;
    BothRetained(start, a, b);
    var two := State(RetainAll(RetainAll(start.tree, a), b), a + b, [], start.db, start.batches, start.history + a + b);
    ReachesNext(start, [Retain(a), Retain(b)], two, Consume);
    var three := two.(running := a + b, pending := []);
    ReachesNext(start, [Retain(a), Retain(b)] + [Consume], three, Finish);
    assert [Retain(a), Retain(b)] + [Consume] + [Finish] == [Retain(a), Retain(b), Consume, Finish];
  }

  lemma BothRetained(start: State, a: seq<Row>, b: seq<Row>)
    requires start.running == [] && start.pending == [] && TopicsOk(a) && TopicsOk(b)
    ensures Reachable(start, [Retain(a), Retain(b)],
                      State(RetainAll(RetainAll(start.tree, a), b), a + b, [], start.db, start.batches, start.history + a + b))
  {
    hide TopicsOk, RetainAll, Reachable;
    assert [] + a == a && [] + [Retain(a)] == [Retain(a)] && [Retain(a)] + [Retain(b)] == [Retain(a), Retain(b)];
    StartReachable(start);
    ReachesNext(start, [], start, Retain(a));
    ReachesNext(start, [Retain(a)], Next(start, Retain(a)), Retain(b));
  }

  lemma StartReachable(start: State)
    ensures Reachable(start, [], start)
  {
  }

  lemma ReachesNext(start: State, steps: seq<Step>, before: State, step: Step)
    requires Reachable(start, steps, before) && Enabled(before, step)
    ensures Reachable(start, steps + [step], Next(before, step))
  {
    var all := steps + [step];
    assert all[..|all| - 1] == steps && all[|all| - 1] == step;
    assert Reachable(start, all[..|all| - 1], before) && Enabled(before, all[|all| - 1]);
    assert Reachable(start, all, Next(before, all[|all| - 1]));
  }

  /** The run in which a topic is published and deleted before the worker wakes: the deleted message is back. */
  lemma DeletedMessageReturns(data: bytes)
    ensures var start := State(Empty(), [], [], map[], [], []);
            var a, b := [Row(["a"], Some(data), 0)], [Row(["a"], None, 0)];
            var s := State(RetainAll(RetainAll(Empty(), a), b), [], [], map["a" := Record(data, 0)], [a + b], a + b);
            && Fresh(start) && Mirrors(start.db, start.tree) && Reachable(start, [Retain(a), Retain(b), Consume, Finish], s)
            && Returned(s.batches, ["a"]) && !Mirrors(s.db, s.tree) && SlotAt(s.tree, ["a"]) == Some(None)
  {
    hide Mirrors, Batched, Returned, Reachable;
    var start := State(Empty(), [], [], map[], [], []);
    var a, b := [Row(["a"], Some(data), 0)], [Row(["a"], None, 0)];
    RowsOfA(a);
    RowsOfA(b);
    RowsOfA(a + b);
    EmptyMirrors(map[]);
    WrittenTogether(start, a, b);
    WrittenA(a[0], b[0]);
    assert [] + [a + b] == [a + b] && [] + a + b == a + b && [a[0]] + [b[0]] == a + b;
    var s := State(RetainAll(RetainAll(Empty(), a), b), [], [], map["a" := Record(data, 0)], [a + b], a + b);
    ReturnedA(a + b);
    QuiescentTableExact(start, [Retain(a), Retain(b), Consume, Finish], s);
    RetainSlot(RetainAll(Empty(), a), b, ["a"]);
    LastForConcat([], b, ["a"]);
    assert [] + b == b && b[|b| - 1].topic == ["a"];
  }

  lemma EmptyMirrors(db: Table)
    requires db == map[]
    ensures Mirrors(db, Empty())
  {
  }

  lemma WrittenA(put: Row, delete: Row)
    requires put.topic == delete.topic == ["a"] && put.data.Some? && delete.data.None? && TopicsOk([put] + [delete])
    ensures Batched(map[], [put] + [delete]) == map["a" := Record(put.data.value, put.qos)]
  {
    var rows := [put] + [delete];
    assert rows[..1] == [put] && rows[..1][..0] == [] && Join(["a"]) == "a";
    assert Creates(rows[..1]) == [] + [Entry("a", Record(put.data.value, put.qos))];
    assert Creates(rows) == [Entry("a", Record(put.data.value, put.qos))] + [];
    var entries := [Entry("a", Record(put.data.value, put.qos))];
    assert entries[..0] == [] && Creates(rows) == entries;
    var none: Table := map[];
    assert none - Deletes(rows) == none;
    assert Upserted(none, entries) == map["a" := Record(put.data.value, put.qos)];
  }

  lemma RowsOfA(rows: seq<Row>)
    requires forall row :: row in rows ==> row.topic == ["a"]
    ensures IsTopic(["a"]) && Join(["a"]) == "a" && TopicsOk(rows)
  {
    assert "a"[0] != SEPARATOR;
  }

  lemma ReturnedA(rows: seq<Row>)
    requires |rows| == 2 && rows[0].topic == rows[1].topic == ["a"] && rows[0].data.Some? && rows[1].data.None?
    ensures Returned([rows], ["a"]) && LastFor(rows, ["a"]) == Some(None)
    ensures LastWrite(rows, ["a"]) == Some(Record(rows[0].data.value, rows[0].qos))
  {
    assert rows[0] in rows;
    assert rows[..1][..0] == [];
  }

  // ---------------------------------------------------------------- restart

  predicate NonEmptyNodes(topic: Path) {
    forall node :: node in topic ==> node != ""
  }

  /** The topic preload rebuilds from a stored string: its parts, the empty ones skipped. */
  function Skipped(nodes: Path): Path {
    if nodes == [] then []
    else Skipped(nodes[..|nodes| - 1]) + if nodes[|nodes| - 1] != "" then [nodes[|nodes| - 1]] else []
  }

  lemma {:induction false} SkippedConcat(a: Path, b: Path)
    ensures Skipped(a + b) == Skipped(a) + Skipped(b)
    ensures forall node :: Skipped([node]) == if node == "" then [] else [node]
    decreases |b|
  {
    forall node
      ensures Skipped([node]) == if node == "" then [] else [node]
    {
      assert [node][..0] == [];
    }
    if b == [] {
      assert a + b == a;
    } else {
      assert (a + b)[..|a + b| - 1] == a + b[..|b| - 1];
      SkippedConcat(a, b[..|b| - 1]);
    }
  }

  lemma {:induction false} SkippedNone(nodes: Path)
    requires NonEmptyNodes(nodes)
    ensures Skipped(nodes) == nodes
  {
    if nodes != [] {
      var init := nodes[..|nodes| - 1];
      assert nodes[|nodes| - 1] in nodes && forall node :: node in init ==> node in nodes;
      assert nodes == init + [nodes[|nodes| - 1]];
      SkippedNone(nodes[..|nodes| - 1]);
    }
  }

  predicate Restorable(db: Table) {
    forall s :: s in db ==> NonEmptyNodes(Split(s))
  }
}

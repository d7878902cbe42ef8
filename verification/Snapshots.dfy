/**
 A snapshot and the deltas that follow it against the retained tree: overlaying a batch's message
 on what a client holds does to its view what retaining the batch does to the tree.
 */
module Snapshots {
  import opened Wrappers
  import opened Topics
  import opened Tries
  import opened Rows
  import opened Items
  import opened Filters

  ghost predicate Shaped(view: Item, filter: Path) {
    view == Blank || Uniform(view, Wilds(filter))
  }

  /** A client's view shows, at every choice of wildcard values, what the tree shows at that topic. */
  ghost predicate Agrees(view: Item, t: Trie<Payload>, filter: Path) {
    && Shaped(view, filter)
    && forall wild: Path | |wild| == Wilds(filter) ::
         ValueAt(view, wild) == Visible(SlotAt(t, Fill(filter, wild)))
  }

  function TopicsOf(rows: seq<Row>): set<Path> {
    set row | row in rows :: row.topic
  }

  /** The view after the message, if any, that a batch causes for the filter. */
  function Advanced(view: Item, filter: Path, rows: seq<Row>): Item {
    if Matching(rows, filter) == [] then view else Overlay(view, MessageFor(rows, filter))
  }

  function Replay(view: Item, filter: Path, batches: seq<seq<Row>>): Item
    decreases |batches|
  {
    if batches == [] then view
    else Replay(Advanced(view, filter, batches[0]), filter, batches[1..])
  }

  function Flat(batches: seq<seq<Row>>): seq<Row> {
    if batches == [] then [] else batches[0] + Flat(batches[1..])
  }

  lemma SlotHasPath(t: Trie<Payload>, path: Path)
    ensures !HasPath(t, path) ==> SlotAt(t, path) == None
  {
  }

  lemma SnapshotAgrees(t: Trie<Payload>, filter: Path, item: Item)
    requires filter != [] && IsSnapshot(t, filter, item)
    ensures Agrees(item, t, filter)
  {
    forall wild: Path | |wild| == Wilds(filter)
      ensures ValueAt(item, wild) == Visible(SlotAt(t, Fill(filter, wild)))
    {
      assert Found(item, wild) == Expected(t, filter, wild);
      SlotHasPath(t, Fill(filter, wild));
    }
  }

  /** The payload a batch's message carries for one choice of wildcard values is the last one for that topic. */
  lemma MessageValue(filter: Path, rows: seq<Row>, wild: Path)
    requires EVERYTHING_CARD !in filter && |wild| == Wilds(filter)
    requires rows != [] && AllMatch(rows, filter)
    ensures Uniform(MessageData(filter, rows), Wilds(filter))
    ensures ItemAt(MessageData(filter, rows), wild) ==
            match LastFor(rows, Fill(filter, wild)) case None => None case Some(data) => Some(FromPayload(data))
  {
    HasWild(filter);
    if MANY_CARD in filter {
      BuildItemAt(filter, rows, wild);
    } else {
      var last := rows[|rows| - 1];
      assert last in rows;
      FillProject(filter, last.topic);
      ProjectLength(filter, last.topic);
      assert Project(filter, last.topic) == wild;
    }
  }

  /** What the message of a batch makes of a view: the batch's last payload where it has one. */
  lemma AdvancedValue(view: Item, filter: Path, rows: seq<Row>, wild: Path)
    requires EVERYTHING_CARD !in filter && Shaped(view, filter) && |wild| == Wilds(filter)
    ensures Shaped(Advanced(view, filter, rows), filter)
    ensures ValueAt(Advanced(view, filter, rows), wild) ==
            if LastFor(rows, Fill(filter, wild)).Some? then Visible(LastFor(rows, Fill(filter, wild)))
            else ValueAt(view, wild)
  {
    MatchingIn(rows, filter);
    ProjectFill(filter, wild);
    LastMatching(rows, filter, Fill(filter, wild));
    var matching := Matching(rows, filter);
    if matching != [] {
      MessageValue(filter, matching, wild);
      if view != Blank {
        OverlayAt(view, MessageData(filter, matching), wild);
      }
    }
  }

  lemma AdvancedShaped(view: Item, filter: Path, rows: seq<Row>)
    requires EVERYTHING_CARD !in filter && Shaped(view, filter)
    ensures Shaped(Advanced(view, filter, rows), filter)
  {
    var some := seq(Wilds(filter), _ => "");
    AdvancedValue(view, filter, rows, some);
  }

  lemma TopicsOfLast(rows: seq<Row>, topic: Path)
    ensures topic in TopicsOf(rows) <==> LastFor(rows, topic).Some?
  {
    LastForIn(rows, topic);
  }

  /** One batch: the overlaid view agrees with the tree that retains the batch. */
  lemma AdvanceAgrees(view: Item, t: Trie<Payload>, filter: Path, rows: seq<Row>)
    requires EVERYTHING_CARD !in filter && Agrees(view, t, filter)
    ensures Agrees(Advanced(view, filter, rows), RetainAll(t, rows), filter)
  {
    AdvancedShaped(view, filter, rows);
    forall wild: Path | |wild| == Wilds(filter)
      ensures ValueAt(Advanced(view, filter, rows), wild) == Visible(SlotAt(RetainAll(t, rows), Fill(filter, wild)))
    {
      AdvancedValue(view, filter, rows, wild);
      RetainSlot(t, rows, Fill(filter, wild));
    }
  }

  /**
   Snapshot/delta commutation: filtering after retaining a batch reads the same, at every choice of
   wildcard values, as filtering before and overlaying the message the batch causes.
   */
  lemma SnapshotDeltaCommute(t: Trie<Payload>, filter: Path, rows: seq<Row>, before: Item, after: Item, wild: Path)
    requires filter != [] && EVERYTHING_CARD !in filter && |wild| == Wilds(filter)
    requires IsSnapshot(t, filter, before) && IsSnapshot(RetainAll(t, rows), filter, after)
    ensures ValueAt(after, wild) == ValueAt(Advanced(before, filter, rows), wild)
  {
    SnapshotAgrees(t, filter, before);
    SnapshotAgrees(RetainAll(t, rows), filter, after);
    AdvanceAgrees(before, t, filter, rows);
  }

  /** Any number of batches: the last payload any of them has, else what the view showed. */
  lemma {:induction false} ReplayValue(view: Item, filter: Path, batches: seq<seq<Row>>, wild: Path)
    requires EVERYTHING_CARD !in filter && Shaped(view, filter) && |wild| == Wilds(filter)
    ensures Shaped(Replay(view, filter, batches), filter)
    ensures ValueAt(Replay(view, filter, batches), wild) ==
            if LastFor(Flat(batches), Fill(filter, wild)).Some? then Visible(LastFor(Flat(batches), Fill(filter, wild)))
            else ValueAt(view, wild)
    decreases |batches|
  {
    if batches != [] {
      AdvancedValue(view, filter, batches[0], wild);
      ReplayValue(Advanced(view, filter, batches[0]), filter, batches[1..], wild);
      LastForConcat(batches[0], Flat(batches[1..]), Fill(filter, wild));
    }
  }

  lemma ReplayAgrees(view: Item, t: Trie<Payload>, filter: Path, batches: seq<seq<Row>>)
    requires EVERYTHING_CARD !in filter && Agrees(view, t, filter)
    ensures Agrees(Replay(view, filter, batches), RetainAll(t, Flat(batches)), filter)
  {
    var some := seq(Wilds(filter), _ => "");
    ReplayValue(view, filter, batches, some);
    forall wild: Path | |wild| == Wilds(filter)
      ensures ValueAt(Replay(view, filter, batches), wild) == Visible(SlotAt(RetainAll(t, Flat(batches)), Fill(filter, wild)))
    {
      ReplayValue(view, filter, batches, wild);
      RetainSlot(t, Flat(batches), Fill(filter, wild));
    }
  }

  lemma {:induction false} ReplayAppend(view: Item, filter: Path, batches: seq<seq<Row>>, rows: seq<Row>)
    ensures Replay(view, filter, batches + [rows]) == Advanced(Replay(view, filter, batches), filter, rows)
    decreases |batches|
  {
    if batches == [] {
      assert (batches + [rows])[1..] == [];
    } else {
      assert (batches + [rows])[1..] == batches[1..] + [rows];
      ReplayAppend(Advanced(view, filter, batches[0]), filter, batches[1..], rows);
    }
  }

  lemma {:induction false} FlatAppend(batches: seq<seq<Row>>, rows: seq<Row>)
    ensures Flat(batches + [rows]) == Flat(batches) + rows
  {
    if batches == [] {
      assert (batches + [rows])[1..] == [];
    } else {
      assert (batches + [rows])[1..] == batches[1..] + [rows];
      FlatAppend(batches[1..], rows);
    }
  }
}

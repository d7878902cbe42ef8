/**
 Payload trees: the dict a snapshot builds, the JSON tree a message carries, and the merge a
 client makes of them. stringify and the JSON parser are taken to be inverse, so both sides
 of a message share this type. The order of a JSON object's keys is left open.
 */
module Items {
  import opened Wrappers
  import opened Bytes
  import opened Topics
  import opened Rows

  datatype Item =
    | Nothing                            // None, or JSON null
    | Blank                              // the empty str a snapshot gives for a missing static topic
    | Text(data: bytes)
    | Obj(entries: map<string, Item>)

  function FromPayload(data: Payload): Item {
    if data.Some? then Text(data.value) else Nothing
  }

  /** A leaf in a JSON tree. */
  function LeafItem(slot: Option<Payload>): Option<Item> {
    match slot
    case None => None
    case Some(None) => Some(Nothing)
    case Some(Some(data)) => Some(Text(data))
  }

  /** What following dict keys finds. */
  function ItemAt(item: Item, path: Path): Option<Item>
    decreases path
  {
    if path == [] then Some(item)
    else if item.Obj? && path[0] in item.entries then ItemAt(item.entries[path[0]], path[1..])
    else None
  }

  /** The value a client reads at a path. */
  function ValueAt(item: Item, path: Path): Option<bytes> {
    var at := ItemAt(item, path);
    if at.Some? && at.value.Text? && at.value.data != [] then Some(at.value.data) else None
  }

  /** Objects down to depth k, and payloads exactly there. */
  ghost predicate Uniform(item: Item, k: nat) {
    if k == 0 then item.Nothing? || item.Text?
    else item.Obj? && forall key :: key in item.entries ==> Uniform(item.entries[key], k - 1)
  }

  /** No object inside is empty. */
  ghost predicate Solid(item: Item) {
    item.Obj? ==> item.entries.Keys != {} && forall key :: key in item.entries ==> Solid(item.entries[key])
  }

  /** A tree with at most its root object empty. */
  ghost predicate NoEmptyObject(item: Item) {
    item.Obj? ==> forall key :: key in item.entries ==> Solid(item.entries[key])
  }

  function EntriesOf(item: Item): map<string, Item> {
    if item.Obj? then item.entries else map[]
  }

  /** Assign under nested dicts, creating the ones that are missing. */
  function SetPath(item: Item, path: Path, leaf: Item): Item
    decreases path
  {
    if path == [] then leaf
    else
      var entries := EntriesOf(item);
      var below := if path[0] in entries then entries[path[0]] else Obj(map[]);
      Obj(entries[path[0] := SetPath(below, path[1..], leaf)])
  }

  /** build_message_data for a filter with wildcards: each row's payload under the nodes its wildcards stand for. */
  function BuildItem(filter: Path, rows: seq<Row>): Item
    requires AllMatch(rows, filter)
  {
    if rows == [] then Obj(map[])
    else
      var last := rows[|rows| - 1];
      assert last in rows;
      SetPath(BuildItem(filter, rows[..|rows| - 1]), Project(filter, last.topic), FromPayload(last.data))
  }

  /** The payload of the message for a filter: a tree under wildcards, else whatever the last row says. */
  function MessageData(filter: Path, rows: seq<Row>): Item
    requires rows != [] && AllMatch(rows, filter)
  {
    if MANY_CARD in filter then BuildItem(filter, rows) else FromPayload(rows[|rows| - 1].data)
  }

  /** The payload of the message a batch causes for a filter that matches some of it. */
  function MessageFor(rows: seq<Row>, filter: Path): Item
    requires Matching(rows, filter) != []
  {
    MatchingIn(rows, filter);
    MessageData(filter, Matching(rows, filter))
  }

  /** A client's merge of a newer message into what it holds. */
  function Overlay(held: Item, newer: Item): Item {
    if held.Obj? && newer.Obj? then
      Obj(map key | key in held.entries.Keys + newer.entries.Keys ::
            if key !in newer.entries then held.entries[key]
            else if key !in held.entries then newer.entries[key]
            else Overlay(held.entries[key], newer.entries[key]))
    else newer
  }

  // ---------------------------------------------------------------- laws

  lemma {:induction false} SetPathAt(item: Item, path: Path, leaf: Item, other: Path)
    requires Uniform(item, |path|) || path == []
    requires leaf.Nothing? || leaf.Text?
    requires |other| == |path|
    ensures Uniform(SetPath(item, path, leaf), |path|)
    ensures ItemAt(SetPath(item, path, leaf), other) == if other == path then Some(leaf) else ItemAt(item, other)
    decreases path
  {
    if path != [] {
      var below := if path[0] in item.entries then item.entries[path[0]] else Obj(map[]);
      assert path == [path[0]] + path[1..] && other == [other[0]] + other[1..];
      SetPathAt(below, path[1..], leaf, other[1..]);
    }
  }

  /** A message tree holds, at each wildcard value, the last payload of that topic in the batch. */
  lemma {:induction false} BuildItemAt(filter: Path, rows: seq<Row>, wild: Path)
    requires EVERYTHING_CARD !in filter && MANY_CARD in filter && |wild| == Wilds(filter)
    requires AllMatch(rows, filter)
    ensures Uniform(BuildItem(filter, rows), Wilds(filter)) && Wilds(filter) > 0
    ensures ItemAt(BuildItem(filter, rows), wild) ==
            match LastFor(rows, Fill(filter, wild)) case None => None case Some(data) => Some(FromPayload(data))
  {
    HasWild(filter);
    if rows != [] {
      var init, last := rows[..|rows| - 1], rows[|rows| - 1];
      assert last in rows;
      BuildItemAt(filter, init, wild);
      FillProject(filter, last.topic);
      ProjectFill(filter, wild);
      SetPathAt(BuildItem(filter, init), Project(filter, last.topic), FromPayload(last.data), wild);
    }
  }

  /**
   The message of a batch for a filter holds, at each choice of wildcard values, the last payload of the topic they make;
   without wildcards it is that payload.
   */
  lemma MessageEntries(rows: seq<Row>, filter: Path, wild: Path)
    requires "#" !in filter && |wild| == Wilds(filter) && Matching(rows, filter) != []
    ensures ItemAt(MessageFor(rows, filter), wild) == LeafItem(LastFor(rows, Fill(filter, wild)))
  {
    var matching := Matching(rows, filter);
    MatchingIn(rows, filter);
    ProjectFill(filter, wild);
    LastMatching(rows, filter, Fill(filter, wild));
    HasWild(filter);
    if MANY_CARD in filter {
      BuildItemAt(filter, matching, wild);
    } else {
      var last := matching[|matching| - 1];
      assert last in matching;
      FillProject(filter, last.topic);
      assert wild == [] && last.topic == Fill(filter, wild);
    }
  }

  lemma {:induction false} HasWild(filter: Path)
    requires EVERYTHING_CARD !in filter
    ensures MANY_CARD in filter <==> Wilds(filter) > 0
  {
    if filter != [] {
      assert filter == [filter[0]] + filter[1..];
      HasWild(filter[1..]);
    }
  }

  lemma {:induction false} OverlayAt(held: Item, newer: Item, wild: Path)
    requires Uniform(held, |wild|) && Uniform(newer, |wild|)
    ensures Uniform(Overlay(held, newer), |wild|)
    ensures ItemAt(Overlay(held, newer), wild) ==
            if ItemAt(newer, wild).Some? then ItemAt(newer, wild) else ItemAt(held, wild)
    decreases |wild|
  {
    if wild != [] {
      forall key | key in held.entries && key in newer.entries
        ensures Uniform(Overlay(held.entries[key], newer.entries[key]), |wild| - 1)
      {
        OverlayAt(held.entries[key], newer.entries[key], wild[1..]);
      }
      if wild[0] in held.entries && wild[0] in newer.entries {
        OverlayAt(held.entries[wild[0]], newer.entries[wild[0]], wild[1..]);
      }
    }
  }
}

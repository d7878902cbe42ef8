/** protocols/filter_tree.py: the snapshot of the retained tree that a sync subscribe sends. */
module Filters {
  import opened Wrappers
  import opened Topics
  import opened Tries
  import opened Rows
  import opened Items
  import opened RecursiveDefaultDicts

  /**
   What a snapshot holds for one choice of wildcard values. Under a trailing "+" only visible values
   are kept; under a trailing static node every existing branch has an entry, null when it has no value.
   */
  function Expected(t: Trie<Payload>, filter: Path, wild: Path): Option<Item>
    requires filter != [] && |wild| == Wilds(filter)
  {
    var topic := Fill(filter, wild);
    var slot := SlotAt(t, topic);
    if filter[|filter| - 1] == MANY_CARD then
      if Visible(slot).Some? then Some(Text(Visible(slot).value)) else None
    else if HasPath(t, topic) then Some(FromPayload(slot.GetOr(None)))
    else None
  }

  /** What is found in a snapshot, its "nothing here" string aside. */
  function Found(item: Item, wild: Path): Option<Item> {
    if ItemAt(item, wild) == Some(Blank) then None else ItemAt(item, wild)
  }

  ghost predicate IsSnapshot(t: Trie<Payload>, filter: Path, item: Item)
    requires filter != []
  {
    && (item == Blank || Uniform(item, Wilds(filter)))
    && NoEmptyObject(item)
    && forall wild: Path | |wild| == Wilds(filter) :: Found(item, wild) == Expected(t, filter, wild)
  }

  /** A trie as a nested dict, leaves under LEAF_KEY. */
  function Whole(t: Trie<Payload>): Item {
    var branches := map k | k in t.kids :: Whole(t.kids[k]);
    Obj(if t.slot.Some? then branches[LEAF_KEY := FromPayload(t.slot.value)] else branches)
  }

  /** What the JSON encoder reads from the live tree that a trailing "#" returns. */
  function WholeOf(tree: RecursiveDefaultDict<Payload>): (item: Item)
    requires tree.Valid()
    reads tree, tree.Repr
    ensures item == Whole(tree.Value)
    decreases tree.Repr
  {
    var branches := map k | k in tree.kids :: WholeOf(tree.kids[k]);
    assert branches == map k | k in tree.Value.kids :: Whole(tree.Value.kids[k]);
    Obj(if tree.slot.Some? then branches[LEAF_KEY := FromPayload(tree.slot.value)] else branches)
  }

  /** Following keys one after another. */
  lemma {:induction false} ItemAtConcat(item: Item, a: Path, b: Path)
    ensures ItemAt(item, a + b) == match ItemAt(item, a) case None => None case Some(below) => ItemAt(below, b)
    decreases a
  {
    if a == [] {
      assert a + b == b;
    } else if item.Obj? && a[0] in item.entries {
      assert (a + b)[1..] == a[1..] + b;
      ItemAtConcat(item.entries[a[0]], a[1..], b);
    }
  }

  lemma {:induction false} PathConcat(t: Trie<Payload>, a: Path, b: Path)
    ensures SlotAt(t, a + b) == if HasPath(t, a) then SlotAt(SubtrieAt(t, a), b) else None
    ensures HasPath(t, a + b) <==> HasPath(t, a) && HasPath(SubtrieAt(t, a), b)
    decreases a
  {
    if a == [] {
      assert a + b == b;
    } else if a[0] in t.kids {
      assert (a + b)[1..] == a[1..] + b;
      PathConcat(t.kids[a[0]], a[1..], b);
    }
  }

  lemma {:induction false} SubtrieWellFormed(t: Trie<Payload>, path: Path)
    requires WellFormed(t) && HasPath(t, path)
    ensures WellFormed(SubtrieAt(t, path))
    decreases path
  {
    if path != [] {
      SubtrieWellFormed(t.kids[path[0]], path[1..]);
    }
  }

  /** The paths of a whole branch are the paths of the tree, */
  lemma {:induction false} WholePaths(t: Trie<Payload>, path: Path)
    requires WellFormed(t) && "/" !in path
    ensures ItemAt(Whole(t), path).Some? <==> HasPath(t, path)
    ensures HasPath(t, path) ==> ItemAt(Whole(t), path) == Some(Whole(SubtrieAt(t, path)))
    decreases path
  {
    if path != [] {
      assert path[0] in path && path[0] != "/";
      if path[0] in t.kids {
        WholePaths(t.kids[path[0]], path[1..]);
      }
    }
  }

  /** and each has its leaf under "/", a tombstone as null. */
  lemma WholeLeaf(t: Trie<Payload>, path: Path)
    requires WellFormed(t) && "/" !in path
    ensures ItemAt(Whole(t), path + ["/"]) == LeafItem(SlotAt(t, path))
  {
    WholePaths(t, path);
    ItemAtConcat(Whole(t), path, ["/"]);
    PathConcat(t, path, []);
    assert path + [] == path;
    if HasPath(t, path) {
      SubtrieWellFormed(t, path);
      WholeSlot(SubtrieAt(t, path));
    }
  }

  lemma WholeSlot(t: Trie<Payload>)
    requires WellFormed(t)
    ensures ItemAt(Whole(t), ["/"]) == LeafItem(t.slot)
    ensures Whole(t) == Obj(map[]) <==> t.slot == None && t.kids == map[]
  {
    var entries := Whole(t).entries;
    assert t.slot.Some? ==> "/" in entries;
    assert forall k :: k in t.kids ==> k in entries;
    assert ["/"][1..] == [];
  }

  /** What the "+" case keeps of the branch at key. */
  ghost predicate BranchShown(branch: Trie<Payload>, nextTopic: Path, key: string, result: map<string, Item>) {
    if nextTopic == [] then
      if Visible(branch.slot).Some? then key in result && result[key] == Text(Visible(branch.slot).value)
      else key !in result
    else if key in result then
      IsSnapshot(branch, nextTopic, result[key]) && result[key] != Blank && result[key] != Obj(map[])
    else IsSnapshot(branch, nextTopic, Blank) || IsSnapshot(branch, nextTopic, Obj(map[]))
  }

  lemma Assembled(t: Trie<Payload>, nextTopic: Path, result: map<string, Item>)
    requires EVERYTHING_CARD !in nextTopic
    requires result.Keys <= t.kids.Keys
    requires forall k :: k in t.kids ==> BranchShown(t.kids[k], nextTopic, k, result)
    ensures IsSnapshot(t, [MANY_CARD] + nextTopic, Obj(result))
  {
    hide Found, Expected;
    var filter := [MANY_CARD] + nextTopic;
    assert filter[1..] == nextTopic;
    assert Wilds(filter) == 1 + Wilds(nextTopic);
    assert filter[|filter| - 1] == if nextTopic == [] then MANY_CARD else nextTopic[|nextTopic| - 1];
    forall key | key in result
      ensures Uniform(result[key], Wilds(nextTopic)) && Solid(result[key])
    {
      assert BranchShown(t.kids[key], nextTopic, key, result);
    }
    forall wild: Path | |wild| == Wilds(filter)
      ensures Found(Obj(result), wild) == Expected(t, filter, wild)
    {
      AssembledAt(t, nextTopic, result, wild);
    }
  }

  lemma AssembledAt(t: Trie<Payload>, nextTopic: Path, result: map<string, Item>, wild: Path)
    requires EVERYTHING_CARD !in nextTopic && |wild| == 1 + Wilds(nextTopic)
    requires result.Keys <= t.kids.Keys
    requires forall k :: k in t.kids ==> BranchShown(t.kids[k], nextTopic, k, result)
    requires Wilds([MANY_CARD] + nextTopic) == |wild|
    ensures Found(Obj(result), wild) == Expected(t, [MANY_CARD] + nextTopic, wild)
  {
    var filter := [MANY_CARD] + nextTopic;
    assert filter[1..] == nextTopic;
    var topic := Fill(filter, wild);
    assert topic == [wild[0]] + Fill(nextTopic, wild[1..]) && topic[1..] == Fill(nextTopic, wild[1..]);
    if wild[0] in t.kids {
      assert BranchShown(t.kids[wild[0]], nextTopic, wild[0], result);
      if nextTopic == [] {
        assert SlotAt(t, topic) == t.kids[wild[0]].slot;
        assert wild[1..] == [];
        assert filter[|filter| - 1] == MANY_CARD;
        assert wild[0] in result ==> ItemAt(Obj(result), wild) == Some(result[wild[0]]);
      } else {
        ExpectedBelow(t, filter, wild);
        assert filter[0] == MANY_CARD;
        if wild[0] in result {
          assert Found(Obj(result), wild) == Found(result[wild[0]], wild[1..]);
        } else {
          assert Found(Blank, wild[1..]) == None;
          assert wild[1..] != [] ==> Found(Obj(map[]), wild[1..]) == None;
          assert Found(Obj(result), wild) == None;
          assert Expected(t.kids[wild[0]], nextTopic, wild[1..]) == None;
        }
        assert Found(Obj(result), wild) == Expected(t, filter, wild);
      }
    }
  }

  lemma ExpectedBelow(t: Trie<Payload>, filter: Path, wild: Path)
    requires |filter| > 1 && |wild| == Wilds(filter)
    requires Fill(filter, wild)[0] in t.kids
    ensures Expected(t, filter, wild) ==
            Expected(t.kids[Fill(filter, wild)[0]], filter[1..], if IsNodeStatic(filter[0]) then wild else wild[1..])
  {
  }

  /** Nothing at all under a static node that is missing. */
  lemma MissingBranch(t: Trie<Payload>, filter: Path)
    requires filter != [] && EVERYTHING_CARD !in filter && IsNodeStatic(filter[0]) && filter[0] !in t.kids
    ensures IsSnapshot(t, filter, if IsNodeStatic(filter[|filter| - 1]) then Blank else Obj(map[]))
  {
    HasWild(filter);
    assert filter[|filter| - 1] in filter;
    forall wild: Path | |wild| == Wilds(filter)
      ensures Expected(t, filter, wild) == None
    {
      assert Fill(filter, wild)[0] == filter[0];
    }
  }

  lemma LeafSnapshot(t: Trie<Payload>, node: string)
    requires IsNodeStatic(node) && node in t.kids
    ensures IsSnapshot(t, [node], FromPayload(t.kids[node].slot.GetOr(None)))
  {
    assert [node][1..] == [] && Wilds([node]) == 0;
    forall wild: Path | |wild| == 0
      ensures Found(FromPayload(t.kids[node].slot.GetOr(None)), wild) == Expected(t, [node], wild)
    {
      var topic := [node];
      assert topic[1..] == [] && wild == [];
      assert Fill(topic, wild) == [node] + Fill(topic[1..], wild) == topic;
      assert SlotAt(t, topic) == t.kids[node].slot && HasPath(t, topic);
    }
  }

  lemma StaticStep(t: Trie<Payload>, filter: Path, item: Item)
    requires |filter| > 1 && IsNodeStatic(filter[0]) && filter[0] in t.kids
    requires IsSnapshot(t.kids[filter[0]], filter[1..], item)
    ensures IsSnapshot(t, filter, item)
  {
    forall wild: Path | |wild| == Wilds(filter)
      ensures Found(item, wild) == Expected(t, filter, wild)
    {
      ExpectedBelow(t, filter, wild);
    }
  }

  // ---------------------------------------------------------------- "#"

  /** What is found in a filtered tree, an empty object counting as nothing. */
  function Shown(item: Item, wild: Path): Option<Item> {
    if ItemAt(item, wild) == Some(Obj(map[])) then None else ItemAt(item, wild)
  }

  /** What a filter with a trailing "#" behind base shows for one choice of wildcard values: all of the branch there. */
  function ExpectedBranch(t: Trie<Payload>, base: Path, wild: Path): Option<Item>
    requires |wild| == Wilds(base)
  {
    var topic := Fill(base, wild);
    if !HasPath(t, topic) || Whole(SubtrieAt(t, topic)) == Obj(map[]) then None else Some(Whole(SubtrieAt(t, topic)))
  }

  /** Objects down to depth k, none of those below the root empty. */
  ghost predicate Reaches(item: Item, k: nat) {
    item.Obj? && (k == 0 || forall key :: key in item.entries ==> item.entries[key] != Obj(map[]) && Reaches(item.entries[key], k - 1))
  }

  ghost predicate IsBranches(t: Trie<Payload>, base: Path, item: Item) {
    Reaches(item, Wilds(base)) && forall wild: Path | |wild| == Wilds(base) :: Shown(item, wild) == ExpectedBranch(t, base, wild)
  }

  /** Whether a "#" before the end is reached. */
  ghost predicate Raises(t: Trie<Payload>, topic: Path)
    requires topic != []
    decreases topic
  {
    var node, nextTopic := topic[0], topic[1..];
    nextTopic != [] &&
    if node == EVERYTHING_CARD then true
    else if node == MANY_CARD then exists k :: k in t.kids && Raises(t.kids[k], nextTopic)
    else node in t.kids && Raises(t.kids[node], nextTopic)
  }

  /** Exactly when the nodes before it match a path of the tree. */
  lemma {:induction false} RaisesWhen(t: Trie<Payload>, topic: Path)
    requires topic != []
    ensures Raises(t, topic) <==> exists n: nat, p: Path :: Misplaced(t, topic, n, p)
    decreases topic
  {
    var node, nextTopic := topic[0], topic[1..];
    if node == EVERYTHING_CARD {
      assert topic[..0] == [];
      assert nextTopic != [] ==> Misplaced(t, topic, 0, []);
      forall n: nat, p: Path | Misplaced(t, topic, n, p)
        ensures nextTopic != []
      {
      }
    } else {
      if Raises(t, topic) {
        var key :| key in t.kids && (node == MANY_CARD || node == key) && Raises(t.kids[key], nextTopic);
        RaisesWhen(t.kids[key], nextTopic);
        var n: nat, p: Path :| Misplaced(t.kids[key], nextTopic, n, p);
        MisplacedStep(t, topic, n + 1, [key] + p);
      }
      if n: nat, p: Path :| Misplaced(t, topic, n, p) {
        assert n > 0 && |topic[..n]| == |p|;
        MisplacedStep(t, topic, n, p);
        RaisesWhen(t.kids[p[0]], nextTopic);
      }
    }
  }

  /** The result of a filter, wherever its "#" stands, if it has one. */
  ghost predicate Filtered(t: Trie<Payload>, topic: Path, r: Result<Item>)
    requires topic != []
  {
    var init := topic[..|topic| - 1];
    && (r.Err? <==> Raises(t, topic)) && (r.Err? ==> r.error == InvalidEverythingCard)
    && (EVERYTHING_CARD !in topic ==> r.Ok? && IsSnapshot(t, topic, r.value))
    && (EVERYTHING_CARD !in init && topic[|topic| - 1] == EVERYTHING_CARD ==> r.Ok? && IsBranches(t, init, r.value))
    && (EVERYTHING_CARD in init && r.Ok? ==> r.value == Blank || r.value == Obj(map[]))
    && (r.Ok? ==> (r.value == Blank <==> Absent(t, topic)))
  }

  /** The nodes before the first wildcard. */
  function Fixed(topic: Path): Path {
    if topic == [] || !IsNodeStatic(topic[0]) then [] else [topic[0]] + Fixed(topic[1..])
  }

  /** A topic that ends in a static node and whose nodes before the first wildcard are no path of the tree. */
  predicate Absent(t: Trie<Payload>, topic: Path)
    requires topic != []
  {
    IsNodeStatic(topic[|topic| - 1]) && !HasPath(t, Fixed(topic))
  }

  lemma AbsentStep(t: Trie<Payload>, topic: Path)
    requires topic != []
    ensures !IsNodeStatic(topic[0]) ==> !Absent(t, topic)
    ensures IsNodeStatic(topic[0]) && topic[0] !in t.kids ==> (Absent(t, topic) <==> IsNodeStatic(topic[|topic| - 1]))
    ensures IsNodeStatic(topic[0]) && topic[0] in t.kids ==>
      (Absent(t, topic) <==> |topic| > 1 && Absent(t.kids[topic[0]], topic[1..]))
  {
    if IsNodeStatic(topic[0]) {
      var fixed := Fixed(topic);
      assert fixed == [topic[0]] + Fixed(topic[1..]) && fixed[0] == topic[0] && fixed[1..] == Fixed(topic[1..]);
      assert HasPath(t, fixed) <==> topic[0] in t.kids && HasPath(t.kids[topic[0]], fixed[1..]);
      if |topic| > 1 {
        assert topic[1..][|topic| - 2] == topic[|topic| - 1];
      } else {
        assert fixed[1..] == [] && (topic[0] in t.kids ==> HasPath(t.kids[topic[0]], fixed[1..]));
      }
    }
  }

  /**
   What a filter without "#" shows for each choice of wildcard values: under a trailing "+" the data of a leaf that has some,
   else the data of every path there is, null where it has none.
   */
  lemma FilteredEntries(t: Trie<Payload>, filter: Path, r: Result<Item>, wild: Path)
    requires filter != [] && "#" !in filter && Filtered(t, filter, r) && |wild| == Wilds(filter)
    ensures r.Ok?
    ensures var slot, shown := SlotAt(t, Fill(filter, wild)), ItemAt(r.value, wild);
            if filter[|filter| - 1] == "+" then
              shown == if slot.Some? && slot.value.Some? && slot.value.value != [] then Some(Text(slot.value.value)) else None
            else if HasPath(t, Fill(filter, wild)) then
              shown == Some(if slot.Some? && slot.value.Some? then Text(slot.value.value) else Nothing)
            else shown == None || shown == Some(Blank)
  {
    hide Raises, Absent, HasPath, SlotAt, IsBranches, NoEmptyObject;
    assert IsSnapshot(t, filter, r.value) && Found(r.value, wild) == Expected(t, filter, wild);
    if r.value != Blank {
      UniformAt(r.value, wild);
    } else if wild == [] {
      WildLast(filter);
    }
  }

  lemma {:induction false} UniformAt(item: Item, wild: Path)
    requires Uniform(item, |wild|)
    ensures ItemAt(item, wild) != Some(Blank)
    decreases |wild|
  {
    if wild != [] && wild[0] in item.entries {
      UniformAt(item.entries[wild[0]], wild[1..]);
    }
  }

  lemma {:induction false} WildLast(filter: Path)
    requires filter != [] && Wilds(filter) == 0
    ensures filter[|filter| - 1] != "+"
  {
    if |filter| > 1 {
      WildLast(filter[1..]);
    }
  }

  /** What a filter with a trailing "#" shows, path by path, for each choice of wildcard values. */
  lemma FilteredEverything(t: Trie<Payload>, base: Path, r: Result<Item>, wild: Path, q: Path)
    requires WellFormed(t) && EVERYTHING_CARD !in base && Filtered(t, base + ["#"], r)
    requires |wild| == Wilds(base) && "/" !in q
    ensures r.Ok? && ItemAt(r.value, wild + q + ["/"]) == LeafItem(SlotAt(t, Fill(base, wild) + q))
    ensures q != [] ==> (ItemAt(r.value, wild + q).Some? <==> HasPath(t, Fill(base, wild) + q))
    ensures Shown(r.value, wild).Some? <==> HasPath(t, Fill(base, wild)) && Bears(SubtrieAt(t, Fill(base, wild)))
  {
    hide Absent, Raises, Reaches, Whole;
    var topic, at := base + ["#"], Fill(base, wild);
    assert topic[..|topic| - 1] == base;
    assert IsBranches(t, base, r.value) && Shown(r.value, wild) == ExpectedBranch(t, base, wild);
    PathConcat(t, at, q);
    ItemAtConcat(r.value, wild, q + ["/"]);
    ItemAtConcat(r.value, wild, q);
    assert wild + q + ["/"] == wild + (q + ["/"]);
    NothingBelow(q + ["/"]);
    if q != [] {
      NothingBelow(q);
    }
    if HasPath(t, at) {
      var below := SubtrieAt(t, at);
      SubtrieWellFormed(t, at);
      WholeLeaf(below, q);
      WholePaths(below, q);
      WholeSlot(below);
    }
  }

  /** A branch with a leaf or a branch of its own. */
  predicate Bears(t: Trie<Payload>) {
    t.slot.Some? || t.kids != map[]
  }

  lemma NothingBelow(path: Path)
    requires path != []
    ensures ItemAt(Obj(map[]), path) == None
  {
  }

  lemma {:induction false} RaisesOnly(t: Trie<Payload>, topic: Path)
    requires topic != [] && Raises(t, topic)
    ensures EVERYTHING_CARD in topic[..|topic| - 1]
    decreases topic
  {
    var node, nextTopic := topic[0], topic[1..];
    assert topic[..|topic| - 1] == [node] + nextTopic[..|nextTopic| - 1];
    if node != EVERYTHING_CARD {
      var key :| key in t.kids && Raises(t.kids[key], nextTopic);
      RaisesOnly(t.kids[key], nextTopic);
    }
  }

  lemma WholeBranches(t: Trie<Payload>)
    ensures IsBranches(t, [], Whole(t))
  {
    forall wild: Path | |wild| == 0
      ensures Shown(Whole(t), wild) == ExpectedBranch(t, [], wild)
    {
      assert Fill([], wild) == [];
    }
  }

  /** Nothing below a static node that is missing. */
  lemma NoBranches(t: Trie<Payload>, base: Path)
    requires base != [] && EVERYTHING_CARD !in base && IsNodeStatic(base[0]) && base[0] !in t.kids
    ensures IsBranches(t, base, Obj(map[]))
  {
    forall wild: Path | |wild| == Wilds(base)
      ensures Shown(Obj(map[]), wild) == ExpectedBranch(t, base, wild)
    {
      assert Fill(base, wild)[0] == base[0];
    }
  }

  lemma StaticBranches(t: Trie<Payload>, base: Path, item: Item)
    requires base != [] && IsNodeStatic(base[0]) && base[0] in t.kids
    requires IsBranches(t.kids[base[0]], base[1..], item)
    ensures IsBranches(t, base, item)
  {
    forall wild: Path | |wild| == Wilds(base)
      ensures Shown(item, wild) == ExpectedBranch(t, base, wild)
    {
      assert Fill(base, wild) == [base[0]] + Fill(base[1..], wild);
      assert Fill(base, wild)[1..] == Fill(base[1..], wild);
    }
  }

  /** What the "+" case keeps of the branch at key when a "#" ends the topic. */
  ghost predicate BranchKept(branch: Trie<Payload>, base: Path, key: string, result: map<string, Item>) {
    if key in result then IsBranches(branch, base, result[key]) && result[key] != Obj(map[])
    else IsBranches(branch, base, Obj(map[]))
  }

  lemma AssembledBranches(t: Trie<Payload>, base: Path, result: map<string, Item>)
    requires result.Keys <= t.kids.Keys && forall k :: k in t.kids ==> BranchKept(t.kids[k], base, k, result)
    ensures IsBranches(t, [MANY_CARD] + base, Obj(result))
  {
    var filter := [MANY_CARD] + base;
    assert filter[1..] == base;
    forall key | key in result
      ensures result[key] != Obj(map[]) && Reaches(result[key], Wilds(base))
    {
      assert BranchKept(t.kids[key], base, key, result);
    }
    forall wild: Path | |wild| == Wilds(filter)
      ensures Shown(Obj(result), wild) == ExpectedBranch(t, filter, wild)
    {
      var topic := Fill(filter, wild);
      assert topic == [wild[0]] + Fill(base, wild[1..]) && topic[1..] == Fill(base, wild[1..]);
      if wild[0] in t.kids {
        assert BranchKept(t.kids[wild[0]], base, wild[0], result);
        assert ExpectedBranch(t, filter, wild) == ExpectedBranch(t.kids[wild[0]], base, wild[1..]);
        if wild[0] in result {
          assert Shown(Obj(result), wild) == Shown(result[wild[0]], wild[1..]);
        } else {
          assert Shown(Obj(map[]), wild[1..]) == None;
        }
      }
    }
  }

  lemma StaticFiltered(t: Trie<Payload>, topic: Path, r: Result<Item>)
    requires |topic| > 1 && IsNodeStatic(topic[0]) && topic[0] in t.kids && Filtered(t.kids[topic[0]], topic[1..], r)
    ensures Filtered(t, topic, r)
  {
    hide IsSnapshot, IsBranches, Absent;
    AbsentStep(t, topic);
    var init := topic[..|topic| - 1];
    assert init == [topic[0]] + topic[1..][..|topic| - 2] && init[1..] == topic[1..][..|topic| - 2];
    assert topic == [topic[0]] + topic[1..];
    if EVERYTHING_CARD !in topic {
      StaticStep(t, topic, r.value);
    } else if EVERYTHING_CARD !in init {
      StaticBranches(t, init, r.value);
    }
  }

  lemma MissingFiltered(t: Trie<Payload>, topic: Path)
    requires topic != [] && IsNodeStatic(topic[0]) && topic[0] !in t.kids
    ensures Filtered(t, topic, Ok(if IsNodeStatic(topic[|topic| - 1]) then Blank else Obj(map[])))
  {
    hide IsSnapshot, IsBranches, Absent;
    AbsentStep(t, topic);
    var init := topic[..|topic| - 1];
    assert topic == init + [topic[|topic| - 1]];
    if EVERYTHING_CARD !in topic {
      MissingBranch(t, topic);
    } else if EVERYTHING_CARD !in init {
      NoBranches(t, init);
    }
  }

  method FilterTree(topic: Path, tree: RecursiveDefaultDict<Payload>, foundWildcard: bool) returns (r: Result<Item>)
    requires topic != [] && tree.Valid()
    ensures Filtered(tree.Value, topic, r)
    ensures topic == [EVERYTHING_CARD] ==> r == Ok(Whole(tree.Value))
    decreases topic, 0
  {
    hide IsSnapshot, IsBranches, Filtered;
    var node, nextTopic := topic[0], topic[1..];
    assert topic == [node] + nextTopic;
    if node == EVERYTHING_CARD {
      EverythingFiltered(tree.Value, topic);
      if nextTopic != [] {
        return Err(InvalidEverythingCard);
      }
      return Ok(WholeOf(tree));
    } else if node == MANY_CARD {
      r := FilterBranches(nextTopic, tree);
    } else if node !in tree.kids {
      var wildcard := nextTopic != [] && !IsNodeStatic(nextTopic[|nextTopic| - 1]);
      MissingFiltered(tree.Value, topic);
      return Ok(if wildcard then Obj(map[]) else Blank);
    } else if nextTopic == [] {
      assert topic == [node];
      tree.kids[node].KeyKinds();
      LeafFiltered(tree.Value, node);
      return Ok(FromPayload(tree.kids[node].slot.GetOr(None)));
    } else {
      r := FilterTree(nextTopic, tree.kids[node], foundWildcard);
      StaticFiltered(tree.Value, topic, r);
    }
  }

  lemma EverythingFiltered(t: Trie<Payload>, topic: Path)
    requires topic != [] && topic[0] == EVERYTHING_CARD
    ensures Filtered(t, topic, if |topic| > 1 then Err(InvalidEverythingCard) else Ok(Whole(t)))
  {
    hide IsSnapshot, IsBranches, Absent;
    AbsentStep(t, topic);
    var init := topic[..|topic| - 1];
    if |topic| > 1 {
      assert init[0] == EVERYTHING_CARD;
    } else {
      assert init == [];
      WholeBranches(t);
    }
  }

  lemma LeafFiltered(t: Trie<Payload>, node: string)
    requires IsNodeStatic(node) && node in t.kids
    ensures Filtered(t, [node], Ok(FromPayload(t.kids[node].slot.GetOr(None))))
  {
    hide Absent;
    AbsentStep(t, [node]);
    LeafSnapshot(t, node);
  }

  /** What the "+" case has for one branch, wherever the "#" is. */
  ghost predicate Shows(branch: Trie<Payload>, nextTopic: Path, key: string, result: map<string, Item>) {
    if EVERYTHING_CARD !in nextTopic then BranchShown(branch, nextTopic, key, result)
    else if EVERYTHING_CARD !in nextTopic[..|nextTopic| - 1] then BranchKept(branch, nextTopic[..|nextTopic| - 1], key, result)
    else key !in result && !Raises(branch, nextTopic)
  }

  function Kept(key: string, item: Item, before: map<string, Item>): map<string, Item> {
    if item != Blank && item != Obj(map[]) then before[key := item] else before
  }

  /** An entry for one key says nothing about another. */
  lemma ShowsOther(branch: Trie<Payload>, nextTopic: Path, key: string, before: map<string, Item>, after: map<string, Item>)
    requires (key in before <==> key in after) && (key in before ==> before[key] == after[key])
    ensures Shows(branch, nextTopic, key, before) == Shows(branch, nextTopic, key, after)
  {
  }

  lemma BranchesInObject(t: Trie<Payload>, base: Path, item: Item)
    ensures IsBranches(t, base, item) ==> item.Obj?
  {
  }

  /** The loop of the "+" case keeps the branches that have something to show. */
  lemma OneBranch(branch: Trie<Payload>, nextTopic: Path, key: string, item: Item, before: map<string, Item>)
    requires nextTopic != [] && Filtered(branch, nextTopic, Ok(item)) && key !in before
    ensures Shows(branch, nextTopic, key, Kept(key, item, before))
  {
    hide IsSnapshot, IsBranches, Raises, Absent;
    var init := nextTopic[..|nextTopic| - 1];
    assert nextTopic == init + [nextTopic[|nextTopic| - 1]];
    BranchesInObject(branch, init, item);
  }

  lemma ManyFiltered(t: Trie<Payload>, nextTopic: Path, result: map<string, Item>)
    requires result.Keys <= t.kids.Keys && forall k :: k in t.kids ==> Shows(t.kids[k], nextTopic, k, result)
    requires nextTopic != [] ==> forall k :: k in t.kids ==> !Raises(t.kids[k], nextTopic)
    ensures Filtered(t, [MANY_CARD] + nextTopic, Ok(Obj(result)))
  {
    hide IsSnapshot, IsBranches, BranchShown, BranchKept, Absent;
    var topic := [MANY_CARD] + nextTopic;
    AbsentStep(t, topic);
    var init := topic[..|topic| - 1];
    assert topic[1..] == nextTopic;
    if EVERYTHING_CARD !in nextTopic {
      Assembled(t, nextTopic, result);
    } else {
      var base := nextTopic[..|nextTopic| - 1];
      assert init == [MANY_CARD] + base && topic[|topic| - 1] == nextTopic[|nextTopic| - 1];
      assert nextTopic == base + [nextTopic[|nextTopic| - 1]];
      if EVERYTHING_CARD !in base {
        AssembledBranches(t, base, result);
      } else {
        assert result.Keys == {};
        assert Obj(result) == Obj(map[]);
      }
    }
  }

  lemma ManyRaises(t: Trie<Payload>, nextTopic: Path, key: string)
    requires nextTopic != [] && key in t.kids && Raises(t.kids[key], nextTopic)
    ensures Filtered(t, [MANY_CARD] + nextTopic, Err(InvalidEverythingCard))
  {
    var topic := [MANY_CARD] + nextTopic;
    assert topic[1..] == nextTopic;
    RaisesOnly(t, topic);
  }

  /** One branch of the "+" case. */
  method FilterBranch(nextTopic: Path, key: string, val: RecursiveDefaultDict<Payload>, before: map<string, Item>)
    returns (r: Result<map<string, Item>>)
    requires val.Valid() && key !in before
    ensures r.Err? <==> nextTopic != [] && Raises(val.Value, nextTopic)
    ensures r.Err? ==> r.error == InvalidEverythingCard
    ensures r.Ok? ==> Shows(val.Value, nextTopic, key, r.value) && r.value.Keys <= before.Keys + {key}
    ensures r.Ok? ==> before.Keys <= r.value.Keys && forall k :: k in before ==> r.value[k] == before[k]
    decreases nextTopic, 1
  {
    hide IsSnapshot, IsBranches, Filtered, Raises, BranchKept, RecursiveDefaultDict.Valid, RecursiveDefaultDict.Linked;
    val.KeyKinds();
    if nextTopic == [] {
      var shown := val.slot.Some? && val.slot.value.Some? && val.slot.value.value != [];
      return Ok(if shown then before[key := Text(val.slot.value.value)] else before);
    }
    var branch := FilterTree(nextTopic, val, true);
    FilteredRaises(val.Value, nextTopic, branch);
    if branch.Err? {
      return Err(branch.error);
    }
    OneBranch(val.Value, nextTopic, key, branch.value, before);
    r := Ok(Kept(key, branch.value, before));
  }

  /** The "+" case: an entry for each branch that has something to show. */
  method FilterBranches(nextTopic: Path, tree: RecursiveDefaultDict<Payload>) returns (r: Result<Item>)
    requires tree.Valid()
    ensures Filtered(tree.Value, [MANY_CARD] + nextTopic, r)
    decreases nextTopic, 2
  {
    hide Filtered, Raises, Shows, RecursiveDefaultDict.Valid, RecursiveDefaultDict.Linked;
    tree.KeyKinds();
    var result: map<string, Item> := map[];
    for i := 0 to |tree.keys|
      invariant result.Keys <= tree.kids.Keys && forall k :: k in result ==> k in tree.keys[..i]
      invariant forall k :: k in tree.kids && k in tree.keys[..i] ==> Shows(tree.Value.kids[k], nextTopic, k, result)
      invariant nextTopic != [] ==> forall k :: k in tree.kids && k in tree.keys[..i] ==> !Raises(tree.Value.kids[k], nextTopic)
    {
      var key := tree.keys[i];
      tree.DistinctKeys(i);
      if key != LEAF_KEY {
        var kept := FilterBranch(nextTopic, key, tree.kids[key], result);
        if kept.Err? {
          ManyRaises(tree.Value, nextTopic, key);
          return Err(kept.error);
        }
        forall k | k in tree.kids && k in tree.keys[..i]
          ensures Shows(tree.Value.kids[k], nextTopic, k, kept.value)
        {
          ShowsOther(tree.Value.kids[k], nextTopic, k, result, kept.value);
        }
        result := kept.value;
      }
    }
    ManyFiltered(tree.Value, nextTopic, result);
    r := Ok(Obj(result));
  }

  lemma FilteredRaises(t: Trie<Payload>, topic: Path, r: Result<Item>)
    requires topic != [] && Filtered(t, topic, r)
    ensures r.Err? <==> Raises(t, topic)
    ensures r.Err? ==> r.error == InvalidEverythingCard
  {
  }
}
